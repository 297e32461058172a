/** The sample catalog and sample project the frontend ships with (mockData.js). They stand in
    for the catalog until a backend is wired in, and seed the project list until one is saved. */
module MockData {
  import opened Wrappers
  import opened Geometry
  import opened Parts
  import opened Scene

  /** A connector as the samples write it: every sample connector is a male pin. */
  function Pin(index: string, name: string, description: string): Connector {
    Connector("connector" + index, name, "male", description, "connector" + index + "pin", "connector" + index + "terminal")
  }

  const RedLed := Part(
    "led-red", "led-red", "Red LED (5mm)", "A standard 5mm red LED", "Sample Author",
    map["family" := "LED", "color" := "red", "size" := "5mm", "forward voltage" := "2.0V", "max current" := "20mA"],
    ["LED", "light", "red"],
    "/parts/breadboard/led-red-breadboard.svg",
    [Pin("0", "anode", "positive lead"), Pin("1", "cathode", "negative lead")])

  /** The resistor's title and resistance carry an ohm sign, its tolerance a plus-minus sign. */
  const Resistor330 := Part(
    "resistor-330", "resistor-330", "330\U{03A9} Resistor", "A 330 ohm through-hole resistor", "Sample Author",
    map["family" := "Resistor", "resistance" := "330\U{03A9}", "tolerance" := "\U{00B1}5%", "power" := "0.25W"],
    ["resistor", "330", "ohm"],
    "/parts/breadboard/resistor-330-breadboard.svg",
    [Pin("0", "pin0", "pin"), Pin("1", "pin1", "pin")])

  const ArduinoUno := Part(
    "arduino-uno", "arduino-uno", "Arduino Uno R3", "Arduino Uno R3 microcontroller board", "Sample Author",
    map["family" := "Arduino", "type" := "Uno R3", "processor" := "ATmega328P"],
    ["Arduino", "microcontroller", "Uno"],
    "/parts/breadboard/arduino-uno-breadboard.svg",
    [Pin("0", "D13", "Digital pin 13"), Pin("1", "GND", "Ground"), Pin("2", "5V", "5V power")])

  /** `mockParts`. */
  const MockParts: seq<Part> := [RedLed, Resistor330, ArduinoUno]

  /** The sample project's placed parts carry only id, catalog id, position and rotation. */
  const SampleParts: seq<PlacedPart> := [
    PlacedPart("part-1", "arduino-uno", Point(100.0, 100.0), 0, None),
    PlacedPart("part-2", "led-red", Point(300.0, 150.0), 0, None),
    PlacedPart("part-3", "resistor-330", Point(250.0, 200.0), 0, None)]

  /** Its wires carry no recorded end positions. */
  const SampleWires: seq<Wire> := [
    Wire("wire-1", "part-1", "connector0", "part-3", "connector0", DefaultWireColor, None, None),
    Wire("wire-2", "part-3", "connector1", "part-2", "connector0", DefaultWireColor, None, None)]
}
