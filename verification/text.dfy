/** The JavaScript string operations the catalog filter relies on. */
module Text {

  /** `String.prototype.toLowerCase` on one character: ASCII capitals, the Latin-1 capitals
      U+00C0 to U+00DE (except the multiplication sign) and the basic Greek capitals U+0391 to
      U+03A9 map to their small letters. Capital sigma always becomes σ, never the word-final ς;
      accented Greek capitals and every other character are left as they are. */
  function LowerChar(c: char): char {
    var n := c as int;
    if 'A' as int <= n <= 'Z' as int || (0xC0 <= n <= 0xDE && n != 0xD7) || (0x391 <= n <= 0x3A9 && n != 0x3A2)
    then (n + 32) as char
    else c
  }

  predicate IsLowerCase(c: char) {
    LowerChar(c) == c
  }

  /** `String.prototype.toLowerCase`, character by character. */
  function ToLower(s: string): (r: string)
    ensures |r| == |s|
    ensures forall i :: 0 <= i < |s| ==> r[i] == LowerChar(s[i])
  {
    seq(|s|, i requires 0 <= i < |s| => LowerChar(s[i]))
  }

  lemma LowerCharIsLower(c: char)
    ensures IsLowerCase(LowerChar(c))
  {
  }

  /** Lower-casing twice is lower-casing once, so comparing lowered strings is an equivalence. */
  lemma ToLowerIdempotent(s: string)
    ensures ToLower(ToLower(s)) == ToLower(s)
  {
    forall i | 0 <= i < |s|
      ensures ToLower(ToLower(s))[i] == ToLower(s)[i]
    {
      LowerCharIsLower(s[i]);
    }
  }

  /** `needle` occurs in `hay` at offset `i`. */
  ghost predicate OccursAt(hay: string, needle: string, i: int) {
    0 <= i && i + |needle| <= |hay| && hay[i..i + |needle|] == needle
  }

  /** `String.prototype.includes`: `needle` is a contiguous piece of `hay`. */
  function Contains(hay: string, needle: string): (b: bool)
    ensures |needle| == 0 ==> b
    ensures b ==> |needle| <= |hay|
    decreases |hay|
  {
    if |needle| > |hay| then false
    else hay[..|needle|] == needle || (|hay| > 0 && Contains(hay[1..], needle))
  }

  /** `Contains` holds exactly when there is an offset at which the needle occurs. */
  lemma {:induction false} ContainsIffOccurs(hay: string, needle: string)
    ensures Contains(hay, needle) <==> exists i :: OccursAt(hay, needle, i)
    decreases |hay|
  {
    if |needle| <= |hay| {
      if hay[..|needle|] == needle {
        assert OccursAt(hay, needle, 0);
      } else if |hay| > 0 {
        ContainsIffOccurs(hay[1..], needle);
        if Contains(hay[1..], needle) {
          var i :| OccursAt(hay[1..], needle, i);
          assert hay[1..][i..i + |needle|] == hay[i + 1..i + 1 + |needle|];
          assert OccursAt(hay, needle, i + 1);
        } else {
          forall i | OccursAt(hay, needle, i)
            ensures false
          {
            if i > 0 {
              assert hay[1..][i - 1..i - 1 + |needle|] == hay[i..i + |needle|];
              assert OccursAt(hay[1..], needle, i - 1);
            }
          }
        }
      }
    }
  }

  /** The empty string occurs in every string. */
  lemma ContainsEmpty(hay: string)
    ensures Contains(hay, "")
  {
    assert hay[..0] == "";
  }

  /** Lower-casing works character by character, so it distributes over concatenation. */
  lemma ToLowerAppend(a: string, b: string)
    ensures ToLower(a + b) == ToLower(a) + ToLower(b)
  {
  }

  /** A lower-case ASCII letter is absent from a lower-cased string when neither it nor its
      upper-case form occurs in the original. */
  lemma LowerAbsent(s: string, c: char)
    requires 'a' <= c <= 'z' && c !in s && (c as int - 32) as char !in s
    ensures c !in ToLower(s)
  {
    forall i | 0 <= i < |s| ensures ToLower(s)[i] != c {
      assert s[i] != c && s[i] as int != c as int - 32;
    }
  }

  /** A needle with a character the haystack lacks does not occur in it. */
  lemma MissingCharNotContained(hay: string, needle: string, k: nat)
    requires k < |needle| && needle[k] !in hay
    ensures !Contains(hay, needle)
  {
    ContainsIffOccurs(hay, needle);
  }

  /** An occurrence in a joined string lies in the left piece, in the right piece, or straddles
      the seam and so uses the left piece's last character. */
  lemma ContainsInJoin(a: string, b: string, needle: string)
    requires |a| > 0 && Contains(a + b, needle)
    ensures Contains(a, needle) || Contains(b, needle) || a[|a| - 1] in needle
  {
    ContainsIffOccurs(a, needle);
    ContainsIffOccurs(b, needle);
    ContainsIffOccurs(a + b, needle);
    var ab := a + b;
    var i :| OccursAt(ab, needle, i);
    if i + |needle| <= |a| {
      assert ab[i..i + |needle|] == a[i..i + |needle|];
      assert OccursAt(a, needle, i);
    } else if i >= |a| {
      assert ab[i..i + |needle|] == b[i - |a|..i - |a| + |needle|];
      assert OccursAt(b, needle, i - |a|);
    } else {
      assert ab[i..i + |needle|][|a| - 1 - i] == ab[|a| - 1];
      assert needle[|a| - 1 - i] == a[|a| - 1];
    }
  }

  /** A needle that occurs in neither piece does not occur in the joined string when the left
      piece ends with a character foreign to the needle. */
  lemma JoinNotContained(a: string, b: string, needle: string)
    requires |a| > 0 && a[|a| - 1] !in needle
    requires !Contains(a, needle) && !Contains(b, needle)
    ensures !Contains(a + b, needle)
  {
    if Contains(a + b, needle) {
      ContainsInJoin(a, b, needle);
    }
  }

  /** `JoinNotContained` for lower-cased text: the seam character is the left piece's last
      character lower-cased. */
  lemma JoinLowerNotContained(a: string, b: string, needle: string)
    requires |a| > 0 && LowerChar(a[|a| - 1]) !in needle
    requires !Contains(ToLower(a), needle) && !Contains(ToLower(b), needle)
    ensures !Contains(ToLower(a + b), needle)
  {
    ToLowerAppend(a, b);
    JoinNotContained(ToLower(a), ToLower(b), needle);
  }

  /** A character `String.prototype.trim` removes: ECMAScript WhiteSpace (tab, vertical tab,
      form feed, space, no-break space, byte-order mark and the Space_Separator category)
      and LineTerminator (line feed, carriage return, line and paragraph separators). */
  predicate IsTrimmable(c: char) {
    var n := c as int;
    n == 0x09 || n == 0x0A || n == 0x0B || n == 0x0C || n == 0x0D || n == 0x20 || n == 0xA0
    || n == 0x1680 || (0x2000 <= n <= 0x200A) || n == 0x2028 || n == 0x2029 || n == 0x202F
    || n == 0x205F || n == 0x3000 || n == 0xFEFF
  }

  function TrimStart(s: string): string
  {
    if |s| > 0 && IsTrimmable(s[0]) then TrimStart(s[1..]) else s
  }

  function TrimEnd(s: string): string
  {
    if |s| > 0 && IsTrimmable(s[|s| - 1]) then TrimEnd(s[..|s| - 1]) else s
  }

  /** `String.prototype.trim`: the piece of `s` left when the trimmable characters at both ends
      are removed, so it neither starts nor ends with one. */
  function Trim(s: string): (r: string)
    ensures exists a :: 0 <= a <= |s| - |r| && r == s[a..a + |r|] && IsBlank(s[..a]) && IsBlank(s[a + |r|..])
    ensures r == "" || (!IsTrimmable(r[0]) && !IsTrimmable(r[|r| - 1]))
  {
    var t := TrimStart(s);
    TrimStartDrops(s);
    TrimStartShape(s);
    TrimEndDrops(t);
    TrimEndShape(t);
    var r := TrimEnd(t);
    var a := |s| - |t|;
    assert r == s[a..a + |r|];
    assert s[a + |r|..] == t[|r|..];
    assert r == "" || r[0] == t[0];
    r
  }

  /** `TrimStart` removes a blank prefix. */
  lemma {:induction false} TrimStartDrops(s: string)
    ensures |TrimStart(s)| <= |s| && TrimStart(s) == s[|s| - |TrimStart(s)|..]
    ensures IsBlank(s[..|s| - |TrimStart(s)|])
  {
    if |s| > 0 && IsTrimmable(s[0]) {
      TrimStartDrops(s[1..]);
      var k := |s| - |TrimStart(s)|;
      assert s[1..][..k - 1] == s[1..k];
      assert forall i :: 1 <= i < k ==> s[..k][i] == s[1..][..k - 1][i - 1];
    }
  }

  /** `TrimEnd` removes a blank suffix. */
  lemma {:induction false} TrimEndDrops(s: string)
    ensures |TrimEnd(s)| <= |s| && TrimEnd(s) == s[..|TrimEnd(s)|]
    ensures IsBlank(s[|TrimEnd(s)|..])
  {
    if |s| > 0 && IsTrimmable(s[|s| - 1]) {
      var front := s[..|s| - 1];
      TrimEndDrops(front);
      var k := |TrimEnd(s)|;
      assert front[..k] == s[..k];
      assert s[k..] == front[k..] + [s[|s| - 1]];
    }
  }

  /** What `TrimEnd` leaves ends with a character it does not remove. */
  lemma {:induction false} TrimEndShape(s: string)
    ensures TrimEnd(s) == "" || !IsTrimmable(TrimEnd(s)[|TrimEnd(s)| - 1])
  {
    if |s| > 0 && IsTrimmable(s[|s| - 1]) {
      TrimEndShape(s[..|s| - 1]);
    }
  }

  /** Every character is one that trimming removes. */
  ghost predicate IsBlank(s: string) {
    forall i :: 0 <= i < |s| ==> IsTrimmable(s[i])
  }

  lemma {:induction false} TrimStartEmptyIffBlank(s: string)
    ensures TrimStart(s) == "" <==> IsBlank(s)
  {
    if |s| > 0 && IsTrimmable(s[0]) {
      TrimStartEmptyIffBlank(s[1..]);
      if IsBlank(s[1..]) {
        forall i | 0 <= i < |s| ensures IsTrimmable(s[i]) {
          if i > 0 { assert s[i] == s[1..][i - 1]; }
        }
      }
    }
  }

  lemma {:induction false} TrimEndKeepsNonBlank(s: string)
    requires |s| > 0 && !IsTrimmable(s[0])
    ensures TrimEnd(s) != ""
  {
    if IsTrimmable(s[|s| - 1]) {
      TrimEndKeepsNonBlank(s[..|s| - 1]);
    }
  }

  /** A trimmed string is empty (falsy) exactly when every character is trimmable. */
  lemma TrimEmptyIffBlank(s: string)
    ensures Trim(s) == "" <==> IsBlank(s)
  {
    TrimStartEmptyIffBlank(s);
    var t := TrimStart(s);
    if t != "" {
      TrimStartShape(s);
      TrimEndKeepsNonBlank(t);
    }
  }

  /** What `TrimStart` leaves starts with a character it does not remove. */
  lemma {:induction false} TrimStartShape(s: string)
    ensures TrimStart(s) == "" || !IsTrimmable(TrimStart(s)[0])
  {
    if |s| > 0 && IsTrimmable(s[0]) {
      TrimStartShape(s[1..]);
    }
  }
}
