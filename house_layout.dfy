/**
 * The text that House.print_house_info and House.write_house_info_to_file
 * (Classes.py) produce, and the name of the file the latter writes. Both
 * emit the same lines; only the label of the age line differs. What is
 * printed is modelled as its lines (print() adds the newline of each);
 * the file's text is those lines, each followed by the "\n" written
 * after it, which is what `Terminated` builds.
 */
module HouseLayout {
  import opened Wrappers

  /** The attributes of one house, each already turned into text as str()
      would; `price` is absent while house_price is None. */
  datatype Rendered = Rendered(address: string, longitude: string, latitude: string, houseAge: string,
                               rooms: string, bedrooms: string, people: string, income: string,
                               price: Option<string>)

  const Header: string := "House Attributes:"
  /** The age label of print_house_info. */
  const ScreenAgeLabel: string := "House Age in years: "
  /** The age label of write_house_info_to_file. */
  const FileAgeLabel: string := "House Age: "
  const PriceLabel: string := "House Price: "

  /** The labels of the eight attribute lines, top to bottom, as the parser
      reads them. InfoLines spells the same lines out as the source writes
      them; ParseInfoLines proves the two agree. */
  function Labels(ageLabel: string): seq<string> {
    ["Address: ", "Longitude: ", "Latitude: ", ageLabel, "Rooms: ", "Bedrooms: ",
     "Number of People: ", "Monthly Income (in k USD): "]
  }

  /** The header, eight labelled attribute lines in a fixed order, and a
      price line only when the house has a price. */
  function InfoLines(r: Rendered, ageLabel: string): seq<string> {
    [ Header,
      "Address: " + r.address,
      "Longitude: " + r.longitude,
      "Latitude: " + r.latitude,
      ageLabel + r.houseAge,
      "Rooms: " + r.rooms,
      "Bedrooms: " + r.bedrooms,
      "Number of People: " + r.people,
      "Monthly Income (in k USD): " + r.income
    ] + (match r.price case Some(p) => [PriceLabel + p] case None => [])
  }

  /** The line's text after `prefix`, if the line starts with it. */
  function AfterLabel(line: string, prefix: string): (r: Option<string>)
    ensures r.Some? <==> prefix <= line
    ensures r.Some? ==> line == prefix + r.value
  {
    if prefix <= line then Some(line[|prefix|..]) else None
  }

  /** Strips each label from the line beside it; fails if one is missing. */
  function AfterLabels(lines: seq<string>, labels: seq<string>): (r: Option<seq<string>>)
    requires |lines| == |labels|
    ensures r.Some? ==> |r.value| == |labels|
    ensures r.Some? ==> forall k :: 0 <= k < |labels| ==> lines[k] == labels[k] + r.value[k]
  {
    if lines == [] then Some([])
    else
      match (AfterLabel(lines[0], labels[0]), AfterLabels(lines[1..], labels[1..]))
      case (Some(v), Some(vs)) => Some([v] + vs)
      case _ => None
  }

  /** Reads the info lines back into the attributes they show. */
  function ParseInfo(lines: seq<string>, ageLabel: string): Option<Rendered>
  {
    if |lines| < 9 || |lines| > 10 || lines[0] != Header then None
    else
      match AfterLabels(lines[1..9], Labels(ageLabel))
      case None => None
      case Some(v) =>
        if |lines| == 9 then Some(Rendered(v[0], v[1], v[2], v[3], v[4], v[5], v[6], v[7], None))
        else
          match AfterLabel(lines[9], PriceLabel)
          case None => None
          case Some(p) => Some(Rendered(v[0], v[1], v[2], v[3], v[4], v[5], v[6], v[7], Some(p)))
  }

  /** Lines made of each label followed by its value give back the values. */
  lemma {:induction false} AfterLabelsOfLabelled(lines: seq<string>, labels: seq<string>, values: seq<string>)
    requires |lines| == |labels| == |values|
    requires forall k :: 0 <= k < |lines| ==> lines[k] == labels[k] + values[k]
    ensures AfterLabels(lines, labels) == Some(values)
  {
    if lines != [] {
      assert forall k :: 0 <= k < |lines| - 1 ==> lines[1..][k] == lines[k + 1];
      AfterLabelsOfLabelled(lines[1..], labels[1..], values[1..]);
      assert lines[0][|labels[0]|..] == values[0];
      assert values == [values[0]] + values[1..];
    }
  }

  /** The info lines are a faithful serialisation: reading them back gives
      exactly the attributes that were written, price line included. */
  lemma ParseInfoLines(r: Rendered, ageLabel: string)
    ensures ParseInfo(InfoLines(r, ageLabel), ageLabel) == Some(r)
  {
    var lines := InfoLines(r, ageLabel);
    var values := [r.address, r.longitude, r.latitude, r.houseAge, r.rooms, r.bedrooms, r.people, r.income];
    AfterLabelsOfLabelled(lines[1..9], Labels(ageLabel), values);
    if r.price.Some? {
      assert lines[9][|PriceLabel|..] == r.price.value;
    }
  }

  /** The parser accepts only the layout itself: whatever it reads back
      writes out as the very same lines. */
  lemma ParseInfoOnlyLayout(lines: seq<string>, ageLabel: string)
    requires ParseInfo(lines, ageLabel).Some?
    ensures InfoLines(ParseInfo(lines, ageLabel).value, ageLabel) == lines
  {
    var r := ParseInfo(lines, ageLabel).value;
    var v := AfterLabels(lines[1..9], Labels(ageLabel)).value;
    assert forall k :: 0 <= k < 8 ==> lines[k + 1] == Labels(ageLabel)[k] + v[k];
    if |lines| == 10 {
      assert lines[9] == PriceLabel + r.price.value;
    }
  }

  /** The price line is present exactly when the house has a price, and it
      is the last line. */
  lemma PriceLineOnlyWhenPriced(r: Rendered, ageLabel: string)
    ensures |InfoLines(r, ageLabel)| == if r.price.Some? then 10 else 9
    ensures r.price.Some? ==> InfoLines(r, ageLabel)[9] == PriceLabel + r.price.value
  {
  }

  /** The file shows the same lines as the screen except the age label. */
  lemma FileLayoutIsScreenLayout(r: Rendered)
    ensures InfoLines(r, FileAgeLabel) == InfoLines(r, ScreenAgeLabel)[4 := FileAgeLabel + r.houseAge]
  {
  }

  /** Each line followed by a newline, as print() and the file writes emit them. */
  function Terminated(lines: seq<string>): (s: string)
  {
    if lines == [] then "" else lines[0] + "\n" + Terminated(lines[1..])
  }

  /** Emitting lines one after the other is emitting their concatenation. */
  lemma {:induction false} TerminatedAppend(a: seq<string>, b: seq<string>)
    ensures Terminated(a + b) == Terminated(a) + Terminated(b)
  {
    if a == [] {
      assert a + b == b;
    } else {
      assert (a + b)[1..] == a[1..] + b;
      TerminatedAppend(a[1..], b);
    }
  }

  /** address.replace(' ', '_'): every space becomes an underscore. */
  function ReplaceSpaces(s: string): (r: string)
    ensures |r| == |s|
    ensures forall i :: 0 <= i < |s| ==> r[i] == if s[i] == ' ' then '_' else s[i]
  {
    seq(|s|, i requires 0 <= i < |s| => if s[i] == ' ' then '_' else s[i])
  }

  /** The name of the file write_house_info_to_file writes. */
  function FileName(address: string): (name: string)
  {
    ReplaceSpaces(address) + "_info.txt"
  }

  /** A file name has no space, ends in "_info.txt", and keeps every other
      character of the address in place. */
  lemma FileNameShape(address: string)
    ensures var name := FileName(address);
      && ' ' !in name
      && |name| == |address| + 9
      && name[|address|..] == "_info.txt"
      && forall i :: 0 <= i < |address| && address[i] != ' ' ==> name[i] == address[i]
  {
    var name := FileName(address);
    forall i | 0 <= i < |name| ensures name[i] != ' ' {
      if i >= |address| {
        assert name[i] == "_info.txt"[i - |address|];
      }
    }
  }

  /** Two different addresses can share a file: a space and an underscore
      at the same place give the same name, so one file replaces the other. */
  lemma FileNamesCollide()
    ensures "1 Main St" != "1_Main_St" && FileName("1 Main St") == FileName("1_Main_St")
  {
    assert ReplaceSpaces("1 Main St") == "1_Main_St";
    assert ReplaceSpaces("1_Main_St") == "1_Main_St";
  }

  /** The file name of the house used in the tests. */
  lemma TestHouseFileName()
    ensures FileName("123 Test Street") == "123_Test_Street_info.txt"
  {
    assert ReplaceSpaces("123 Test Street") == "123_Test_Street";
  }
}
