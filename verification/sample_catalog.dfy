/** Worked cases over the sample catalog: the facets the library offers and what a search for
    "led" lists. */
module SampleCatalog {
  import opened Wrappers
  import opened Seqs
  import opened Text
  import opened Catalog
  import opened Parts
  import opened MockData

  /** The family each sample part carries. */
  lemma SampleFamilyValues()
    ensures FamilyValues(MockParts) == ["LED", "Resistor", "Arduino"]
  {
    assert FamilyOf(RedLed) == Some("LED");
    assert FamilyOf(Resistor330) == Some("Resistor");
    assert FamilyOf(ArduinoUno) == Some("Arduino");
    assert MockParts[1..][1..][1..] == [];
    assert Collect(MockParts[1..][1..], FamilyOf) == ["Arduino"];
    assert Collect(MockParts[1..], FamilyOf) == ["Resistor", "Arduino"];
  }

  /** The sample catalog offers the facets "all", "LED", "Resistor" and "Arduino", in that order. */
  lemma SampleFamilies()
    ensures Families(MockParts) == ["all", "LED", "Resistor", "Arduino"]
  {
    SampleFamilyValues();
    var values := FamilyValues(MockParts);
    assert values[..2] == ["LED", "Resistor"];
    assert values[..2][..1] == ["LED"];
    assert values[..2][..1][..0] == [];
    assert InsertionOrder(values[..2][..1]) == ["LED"];
    assert InsertionOrder(values[..2]) == ["LED", "Resistor"];
  }

  /** A text with neither case of one letter of "led" does not contain "led" once lower-cased. */
  lemma LacksLed(s: string, k: nat)
    requires k < 3 && "led"[k] !in s && ("led"[k] as int - 32) as char !in s
    ensures !Contains(ToLower(s), "led")
  {
    LowerAbsent(s, "led"[k]);
    MissingCharNotContained(ToLower(s), "led", k);
  }

  lemma ResistorTitleLacksLed()
    ensures !Contains(ToLower(Resistor330.title), "led")
  {
    var t := Resistor330.title;
    assert t == "330\U{03A9} Resistor";
    LacksLed("330\U{03A9} Resistor", 0);
  }

  lemma ResistorDescriptionLacksLed()
    ensures !Contains(ToLower(Resistor330.description), "led")
  {
    var d := Resistor330.description;
    assert d == "A 330 ohm through-hole resistor";
    ResistorDescriptionTextLacksLed();
  }

  lemma ResistorDescriptionTextLacksLed()
    ensures !Contains(ToLower("A 330 ohm through-hole resistor"), "led")
  {
    LacksLed("A 330 ohm through-hole resistor", 2);
  }

  lemma ResistorTagsLackLed()
    ensures forall i :: 0 <= i < |Resistor330.tags| ==> !Contains(ToLower(Resistor330.tags[i]), "led")
  {
    var tags := Resistor330.tags;
    assert tags == ["resistor", "330", "ohm"];
    LacksLed("resistor", 0);
    LacksLed("330", 0);
    LacksLed("ohm", 0);
  }

  /** The term "led" is in none of the resistor's texts. */
  lemma ResistorLacksLed()
    ensures !MatchesText(Resistor330, "led")
  {
    ResistorTitleLacksLed();
    ResistorDescriptionLacksLed();
    ResistorTagsLackLed();
  }

  lemma ArduinoHeadLacksLed()
    ensures !Contains(ToLower("Arduino Uno R3 "), "led")
  {
    LacksLed("Arduino Uno R3 ", 0);
  }

  /** "Arduino Uno R3 microcontroller": no piece holds "led", and the seam follows a space. */
  lemma ArduinoFrontLacksLed()
    ensures !Contains(ToLower("Arduino Uno R3 " + "microcontroller"), "led")
  {
    ArduinoHeadLacksLed();
    LacksLed("microcontroller", 2);
    JoinLowerNotContained("Arduino Uno R3 ", "microcontroller", "led");
  }

  /** The whole description: the front holds no "led", nor does " board", and the seam follows
      an "r". */
  lemma ArduinoDescriptionLacksLed()
    ensures !Contains(ToLower(ArduinoUno.description), "led")
  {
    var front := "Arduino Uno R3 " + "microcontroller";
    ArduinoDescriptionPieces();
    ArduinoFrontLacksLed();
    LacksLed(" board", 0);
    assert front[|front| - 1] == 'r';
    JoinLowerNotContained(front, " board", "led");
  }

  lemma ArduinoDescriptionPieces()
    ensures ArduinoUno.description == ("Arduino Uno R3 " + "microcontroller") + " board"
  {
    var d := ArduinoUno.description;
    assert d == "Arduino Uno R3 microcontroller board";
  }

  lemma ArduinoTitleLacksLed()
    ensures !Contains(ToLower(ArduinoUno.title), "led")
  {
    var t := ArduinoUno.title;
    assert t == "Arduino Uno R3";
    LacksLed("Arduino Uno R3", 0);
  }

  lemma ArduinoTagsLackLed()
    ensures forall i :: 0 <= i < |ArduinoUno.tags| ==> !Contains(ToLower(ArduinoUno.tags[i]), "led")
  {
    var tags := ArduinoUno.tags;
    assert tags == ["Arduino", "microcontroller", "Uno"];
    LacksLed("Arduino", 0);
    LacksLed("microcontroller", 2);
    LacksLed("Uno", 0);
  }

  /** The term "led" is in none of the Arduino's texts. */
  lemma ArduinoLacksLed()
    ensures !MatchesText(ArduinoUno, "led")
  {
    ArduinoTitleLacksLed();
    ArduinoDescriptionLacksLed();
    ArduinoTagsLackLed();
  }

  /** The red LED's title holds "led" once lower-cased. */
  lemma RedLedMatches()
    ensures MatchesText(RedLed, "led")
  {
    var lowered := ToLower(RedLed.title);
    assert lowered[4] == 'l' && lowered[5] == 'e' && lowered[6] == 'd';
    assert OccursAt(lowered, "led", 4);
    ContainsIffOccurs(lowered, "led");
  }

  /** "led" is a term that filters: it does not trim to nothing, and it is already lower-case. */
  lemma LedTermFilters()
    ensures Trim("led") != "" && ToLower("led") == "led"
  {
    assert Trim("led") == "led";
  }

  /** Which sample parts the term "led" under every family keeps. */
  lemma LedListing()
    ensures var keep := ListedFilter("led", AllFamilies);
      keep(RedLed) && !keep(Resistor330) && !keep(ArduinoUno)
  {
    LedTermFilters();
    RedLedMatches();
    ResistorLacksLed();
    ArduinoLacksLed();
  }

  /** A filter keeping the red LED and neither other sample part. */
  lemma FilterSamples(keep: Part -> bool)
    requires keep(RedLed) && !keep(Resistor330) && !keep(ArduinoUno)
    ensures Filter(MockParts, keep) == [RedLed]
  {
    assert MockParts[1..][1..][1..] == [];
    assert Filter(MockParts[1..][1..], keep) == [];
    assert Filter(MockParts[1..], keep) == [];
  }

  /** Searching the sample catalog for "led" under every family lists the red LED alone. */
  lemma SampleSearchLed()
    ensures Search(MockParts, "led", AllFamilies) == [RedLed]
  {
    LedListing();
    SearchIsOneFilter(MockParts, "led", AllFamilies);
    FilterSamples(ListedFilter("led", AllFamilies));
  }
}
