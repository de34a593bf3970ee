/** The parser of the output of `iw dev <iface> scan`. */
module ScanIw {
  import opened Strings

  datatype Network = Network(mac: string, ssid: string, country: string)

  // ---------------------------------------------------------------- what a line does

  // The networks found so far; inside is entry, and i the last index while it is set.
  datatype State = State(networks: seq<Network>, inside: bool)

  const MAC_LENGTH := 17

  predicate StartsEntry(line: string) { "BSS " <= line && |line| >= 4 + MAC_LENGTH }

  function SetAttribute(n: Network, line: string): Network {
    var colon := Index(line, ':');
    if colon < 1 || colon >= |line| - 3 then n
    else
      var key, value := line[..colon], line[colon + 2..];
      if key == "SSID" then n.(ssid := value)
      else if key == "Country" then n.(country := value[..2])
      else n
  }

  function Read(s: State, line: string): State {
    if StartsEntry(line) then State(s.networks + [Network(line[4..4 + MAC_LENGTH], "", "")], true)
    else if !("\t" <= line) then s.(inside := false)
    else if !s.inside || s.networks == [] then s
    else
      var last := |s.networks| - 1;
      s.(networks := s.networks[last := SetAttribute(s.networks[last], line[1..])])
  }

  function ReadAll(s: State, lines: seq<string>): State {
    if lines == [] then s else Read(ReadAll(s, lines[..|lines| - 1]), lines[|lines| - 1])
  }

  function Named(networks: seq<Network>): seq<Network> {
    if networks == [] then []
    else
      var last := networks[|networks| - 1];
      Named(networks[..|networks| - 1]) + if last.ssid != "" then [last] else []
  }

  function Scan(output: string): seq<Network> {
    Named(ReadAll(State([], false), Split(Trim(Go, output), '\n')).networks)
  }

  // ---------------------------------------------------------------- the parser

  lemma ReadNext(s: State, lines: seq<string>, k: nat)
    requires k < |lines|
    ensures ReadAll(s, lines[..0]) == s
    ensures ReadAll(s, lines[..k + 1]) == Read(ReadAll(s, lines[..k]), lines[k])
  {
    assert lines[..k + 1][..k] == lines[..k];
  }

  // Whenever entry is set, i is the last valid index, so no access is out of range.
  method ParseIwNetworkScanResult(iwOutput: string) returns (filtered: seq<Network>)
    ensures filtered == Scan(iwOutput)
  {
    hide ReadAll, Index, Split, Trim, Named;
    var lines := Split(Trim(Go, iwOutput), '\n');
    ghost var start := State([], false);
    ReadNext(start, lines, 0);
    var networks: seq<Network> := [];
    var i := -1;
    var entry := false;
    for k := 0 to |lines|
      invariant i == |networks| - 1 && (entry ==> 0 <= i)
      invariant State(networks, entry) == ReadAll(start, lines[..k])
    {
      var line := lines[k];
      ReadNext(start, lines, k);
      if "BSS " <= line && |line| >= 4 + 17 {
        networks := networks + [Network(line[4..4 + 17], "", "")];
        i := i + 1;
        entry := true;
        continue;
      }
      if !("\t" <= line) {
        entry := false;
        continue;
      }
      if !entry {
        continue;
      }
      line := line[1..];
      var colonPos := Index(line, ':');
      if colonPos < 1 || colonPos >= |line| - 3 {
        assert networks[i := networks[i]] == networks;
        continue;
      }
      var key, value := line[..colonPos], line[colonPos + 2..];
      match key {
        case "SSID" => networks := networks[i := networks[i].(ssid := value)];
        case "Country" =>
          if |value| >= 2 {
            networks := networks[i := networks[i].(country := value[..2])];
          }
        case _ => assert networks[i := networks[i]] == networks;
      }
    }
    assert lines[..|lines|] == lines;
    filtered := KeepNamed(networks);
  }

  method KeepNamed(networks: seq<Network>) returns (filtered: seq<Network>)
    ensures filtered == Named(networks)
  {
    filtered := [];
    for k := 0 to |networks|
      invariant filtered == Named(networks[..k])
    {
      assert networks[..k + 1][..k] == networks[..k];
      if networks[k].ssid != "" {
        filtered := filtered + [networks[k]];
      }
    }
    assert networks[..|networks|] == networks;
  }

  // ---------------------------------------------------------------- round trip

  // A network as iw prints it: more text may follow the address and the country, lines about something
  // else each of its own lines, and lines that belong to no entry the whole.
  datatype Entry = Entry(
    network: Network, macRest: string, countryRest: string,
    afterMac: seq<string>, afterSsid: seq<string>, afterCountry: seq<string>, stray: seq<string>)

  function Indented(line: string): string { "\t" + line }

  function IndentedAll(lines: seq<string>): seq<string> {
    if lines == [] then [] else IndentedAll(lines[..|lines| - 1]) + [Indented(lines[|lines| - 1])]
  }

  function EntryLines(e: Entry): seq<string> {
    ["BSS " + (e.network.mac + e.macRest)] + IndentedAll(e.afterMac)
    + ([Indented("SSID: " + e.network.ssid)] + IndentedAll(e.afterSsid))
    + ([Indented("Country: " + (e.network.country + e.countryRest))] + IndentedAll(e.afterCountry))
    + e.stray
  }

  function AllLines(entries: seq<Entry>): seq<string> {
    if entries == [] then [] else AllLines(entries[..|entries| - 1]) + EntryLines(entries[|entries| - 1])
  }

  // Every line is ended by a newline.
  function Print(lines: seq<string>): string {
    if lines == [] then "" else Join(lines, '\n') + "\n"
  }

  // A line that Trim leaves alone at the end of the output.
  predicate IsLine(s: string) { s != "" && '\n' !in s && !IsSpace(Go, s[|s| - 1]) }

  // A line that is about neither the name nor the country.
  predicate IsOther(s: string) {
    && '\n' !in s
    && !(Index(s, ':') >= 0 && s[..Index(s, ':')] in {"SSID", "Country"})
  }

  predicate AreOther(lines: seq<string>) { forall i :: 0 <= i < |lines| ==> IsOther(lines[i]) }

  // Lines that begin with one that is not indented and none of which starts an entry; what the others
  // say, be it about a name or a country, concerns no network.
  predicate AreStray(lines: seq<string>) {
    && (lines != [] ==> !("\t" <= lines[0]))
    && forall i :: 0 <= i < |lines| ==> '\n' !in lines[i] && !StartsEntry(lines[i])
  }

  predicate IsEntry(e: Entry) {
    && |e.network.mac| == MAC_LENGTH && '\n' !in e.network.mac && '\n' !in e.macRest
    && '\n' !in e.network.ssid
    && |e.network.country| == 2 && '\n' !in e.network.country && '\n' !in e.countryRest
    && AreStray(e.stray)
    && AreOther(e.afterMac) && AreOther(e.afterSsid) && AreOther(e.afterCountry)
  }

  // The last line printed does not end in white space.
  predicate EndsInText(entries: seq<Entry>) {
    entries != [] ==>
      var e := entries[|entries| - 1];
      if e.stray != [] then IsLine(e.stray[|e.stray| - 1])
      else if e.afterCountry != [] then IsLine(e.afterCountry[|e.afterCountry| - 1])
      else IsLine(e.network.country + e.countryRest)
  }

  predicate AreEntries(entries: seq<Entry>) { forall i :: 0 <= i < |entries| ==> IsEntry(entries[i]) }

  // The networks whose name has at least n characters.
  function NamedFrom(n: nat, entries: seq<Entry>): seq<Network> {
    if entries == [] then []
    else
      var last := entries[|entries| - 1].network;
      NamedFrom(n, entries[..|entries| - 1]) + if |last.ssid| >= n then [last] else []
  }

  // What an entry adds to the networks: names of a single character get lost.
  function Parsed(n: Network): Network { if |n.ssid| >= 2 then n else n.(ssid := "") }

  lemma {:induction false} ReadAllAppend(s: State, a: seq<string>, b: seq<string>)
    ensures ReadAll(s, a + b) == ReadAll(ReadAll(s, a), b)
    decreases |b|
  {
    if b == [] {
      assert a + b == a;
    } else {
      var n := |b| - 1;
      assert (a + b)[..|a + b| - 1] == a + b[..n];
      ReadAllAppend(s, a, b[..n]);
    }
  }

  // An indented line goes to the last network.
  lemma ReadIndented(before: seq<Network>, n: Network, line: string)
    ensures Read(State(before + [n], true), Indented(line)) == State(before + [SetAttribute(n, line)], true)
  {
    hide SetAttribute;
    var text := Indented(line);
    assert text[0] == '\t' && "BSS "[0] == 'B' && text[1..] == line;
    assert (before + [n])[|before| := SetAttribute(n, line)] == before + [SetAttribute(n, line)];
  }

  lemma SetNamed(n: Network, key: string, value: string)
    requires ':' !in key && key != ""
    ensures SetAttribute(n, key + ": " + value) ==
      if |value| < 2 then n
      else if key == "SSID" then n.(ssid := value)
      else if key == "Country" then n.(country := value[..2])
      else n
  {
    var line := key + ": " + value;
    assert line[..|key|] == key && line[|key|] == ':' && line[|key| + 2..] == value;
    IndexUnique(line, ':', |key|);
  }

  lemma {:induction false} ReadOthers(before: seq<Network>, n: Network, lines: seq<string>)
    requires AreOther(lines)
    ensures ReadAll(State(before + [n], true), IndentedAll(lines)) == State(before + [n], true)
    decreases |lines|
  {
    if lines != [] {
      var line := lines[|lines| - 1];
      ReadOthers(before, n, lines[..|lines| - 1]);
      ReadIndented(before, n, line);
      assert IsOther(line);
    }
  }

  lemma ReadOne(s: State, line: string)
    ensures ReadAll(s, [line]) == Read(s, line)
  {
    assert [line][..0] == [] && ReadAll(s, []) == s;
  }

  // One attribute and the lines after it.
  lemma ReadAttribute(before: seq<Network>, n: Network, key: string, value: string, others: seq<string>)
    requires ':' !in key && key != "" && AreOther(others)
    ensures ReadAll(State(before + [n], true), [Indented(key + ": " + value)] + IndentedAll(others)) ==
      State(before + [SetAttribute(n, key + ": " + value)], true)
  {
    hide SetAttribute, AreOther;
    var line := key + ": " + value;
    var s := State(before + [n], true);
    ReadAllAppend(s, [Indented(line)], IndentedAll(others));
    ReadOne(s, Indented(line));
    ReadIndented(before, n, line);
    ReadOthers(before, SetAttribute(n, line), others);
  }

  lemma ReadStart(before: seq<Network>, inside: bool, mac: string, rest: string, others: seq<string>)
    requires |mac| == MAC_LENGTH && AreOther(others)
    ensures ReadAll(State(before, inside), ["BSS " + (mac + rest)] + IndentedAll(others)) ==
      State(before + [Network(mac, "", "")], true)
  {
    hide AreOther;
    var line := "BSS " + (mac + rest);
    var s := State(before, inside);
    ReadAllAppend(s, [line], IndentedAll(others));
    ReadOne(s, line);
    assert line[4..4 + MAC_LENGTH] == mac;
    ReadOthers(before, Network(mac, "", ""), others);
  }

  lemma {:induction false} ReadStray(networks: seq<Network>, lines: seq<string>)
    requires AreStray(lines)
    ensures ReadAll(State(networks, true), lines) == State(networks, lines == [])
    decreases |lines|
  {
    if lines != [] {
      ReadStray(networks, lines[..|lines| - 1]);
    }
  }

  lemma ReadEntry(before: seq<Network>, inside: bool, e: Entry)
    requires IsEntry(e)
    ensures ReadAll(State(before, inside), EntryLines(e)) ==
      State(before + [Parsed(e.network)], e.stray == [])
  {
    hide SetAttribute, AreOther, AreStray, IsLine, ReadAll, IndentedAll, Indented, Index;
    var n := e.network;
    var start := ["BSS " + (n.mac + e.macRest)] + IndentedAll(e.afterMac);
    var named := [Indented("SSID: " + n.ssid)] + IndentedAll(e.afterSsid);
    var country := n.country + e.countryRest;
    var located := [Indented("Country: " + country)] + IndentedAll(e.afterCountry);
    var s := State(before, inside);
    var n0 := Network(n.mac, "", "");
    var n1 := if |n.ssid| >= 2 then n0.(ssid := n.ssid) else n0;
    ReadAllAppend(s, start + named + located, e.stray);
    ReadAllAppend(s, start + named, located);
    ReadAllAppend(s, start, named);
    ReadStart(before, inside, n.mac, e.macRest, e.afterMac);
    assert "SSID" + ": " + n.ssid == "SSID: " + n.ssid;
    ReadAttribute(before, n0, "SSID", n.ssid, e.afterSsid);
    SetNamed(n0, "SSID", n.ssid);
    assert "Country" + ": " + country == "Country: " + country;
    ReadAttribute(before, n1, "Country", country, e.afterCountry);
    SetNamed(n1, "Country", country);
    assert country[..2] == n.country;
    ReadStray(before + [Parsed(n)], e.stray);
  }

  function ParsedAll(entries: seq<Entry>): seq<Network> {
    if entries == [] then [] else ParsedAll(entries[..|entries| - 1]) + [Parsed(entries[|entries| - 1].network)]
  }

  lemma NoEntries()
    ensures ReadAll(State([], false), []) == State([], false) && Named([]) == []
  {
  }

  lemma NamedParsed(before: seq<Network>, n: Network)
    ensures Named(before + [Parsed(n)]) == Named(before) + if |n.ssid| >= 2 then [n] else []
  {
    assert (before + [Parsed(n)])[..|before|] == before;
  }

  predicate Inside(entries: seq<Entry>) { entries != [] && entries[|entries| - 1].stray == [] }

  lemma {:induction false} ReadEntries(entries: seq<Entry>)
    requires AreEntries(entries)
    ensures ReadAll(State([], false), AllLines(entries)) == State(ParsedAll(entries), Inside(entries))
    ensures Named(ParsedAll(entries)) == NamedFrom(2, entries)
    decreases |entries|
  {
    hide IsEntry, EntryLines, Read, ReadAll, Named, Parsed;
    if entries == [] {
      NoEntries();
    } else {
      var most, last := entries[..|entries| - 1], entries[|entries| - 1];
      ReadEntries(most);
      ReadAllAppend(State([], false), AllLines(most), EntryLines(last));
      ReadEntry(ParsedAll(most), Inside(most), last);
      NamedParsed(ParsedAll(most), last.network);
    }
  }

  // Lines that the text keeps apart.
  predicate Unbroken(lines: seq<string>) {
    && lines != [] && (forall i :: 0 <= i < |lines| ==> '\n' !in lines[i])
    && lines[0] != "" && !IsSpace(Go, lines[0][0])
  }

  lemma {:induction false} JoinEnds(lines: seq<string>)
    requires lines != [] && lines[0] != "" && lines[|lines| - 1] != ""
    ensures var s := Join(lines, '\n');
      s != "" && s[0] == lines[0][0] && s[|s| - 1] == lines[|lines| - 1][|lines[|lines| - 1]| - 1]
    decreases |lines|
  {
    if |lines| > 1 {
      assert lines[1..][|lines| - 2] == lines[|lines| - 1];
      JoinTail(lines[1..]);
    }
  }

  lemma {:induction false} JoinTail(lines: seq<string>)
    requires lines != [] && lines[|lines| - 1] != ""
    ensures var s := Join(lines, '\n');
      s != "" && s[|s| - 1] == lines[|lines| - 1][|lines[|lines| - 1]| - 1]
    decreases |lines|
  {
    if |lines| > 1 {
      assert lines[1..][|lines| - 2] == lines[|lines| - 1];
      JoinTail(lines[1..]);
    }
  }

  lemma SplitPrinted(lines: seq<string>)
    requires Unbroken(lines) && IsLine(lines[|lines| - 1])
    ensures Split(Trim(Go, Print(lines)), '\n') == lines
  {
    hide Trim, Join, Split, IsSpace;
    JoinEnds(lines);
    TrimEnded(Go, Join(lines, '\n'));
    SplitJoin(lines, '\n');
  }

  lemma {:induction false} OthersUnbroken(lines: seq<string>)
    requires AreOther(lines)
    ensures |IndentedAll(lines)| == |lines|
    ensures forall i :: 0 <= i < |lines| ==>
      IndentedAll(lines)[i] == Indented(lines[i]) && '\n' !in IndentedAll(lines)[i]
    decreases |lines|
  {
    if lines != [] {
      OthersUnbroken(lines[..|lines| - 1]);
      assert IsOther(lines[|lines| - 1]);
    }
  }

  lemma EntryUnbroken(e: Entry)
    requires IsEntry(e)
    ensures Unbroken(EntryLines(e))
    ensures EndsInText([e]) ==> IsLine(EntryLines(e)[|EntryLines(e)| - 1])
  {
    hide AreOther, IndentedAll, Index;
    OthersUnbroken(e.afterMac);
    OthersUnbroken(e.afterSsid);
    OthersUnbroken(e.afterCountry);
  }

  lemma {:induction false} EntriesUnbroken(entries: seq<Entry>)
    requires AreEntries(entries) && entries != []
    ensures Unbroken(AllLines(entries))
    ensures EndsInText(entries) ==> IsLine(AllLines(entries)[|AllLines(entries)| - 1])
    decreases |entries|
  {
    hide IsEntry, EntryLines, IsLine, IsSpace;
    var most, last := entries[..|entries| - 1], entries[|entries| - 1];
    EntryUnbroken(last);
    if most == [] {
      assert AllLines(entries) == EntryLines(last);
    } else {
      EntriesUnbroken(most);
    }
  }

  // Printing networks, with any other lines in between, and scanning the output gives back the
  // networks in order, but for those whose name has fewer than two characters.
  lemma ScanPrinted(entries: seq<Entry>)
    requires AreEntries(entries) && EndsInText(entries)
    ensures Scan(Print(AllLines(entries))) == NamedFrom(2, entries)
  {
    hide IsEntry, AllLines, Unbroken, Trim, Split, ReadAll, Named, NamedFrom;
    ReadEntries(entries);
    if entries == [] {
      NothingPrinted();
    } else {
      EntriesUnbroken(entries);
      SplitPrinted(AllLines(entries));
    }
  }

  lemma NothingPrinted()
    ensures Scan(Print(AllLines([]))) == NamedFrom(2, [])
  {
    assert Split(Trim(Go, ""), '\n') == [""];
    ReadOne(State([], false), "");
  }

  lemma {:induction false} NamedCounts(entries: seq<Entry>)
    ensures |NamedFrom(2, entries)| <= |NamedFrom(1, entries)|
    ensures NamedFrom(2, entries) == NamedFrom(1, entries) <==>
      forall i :: 0 <= i < |entries| ==> |entries[i].network.ssid| != 1
    ensures NamedFrom(2, entries) != NamedFrom(1, entries) ==> |NamedFrom(2, entries)| < |NamedFrom(1, entries)|
    decreases |entries|
  {
    if entries != [] {
      NamedCounts(entries[..|entries| - 1]);
    }
  }

  // All named networks come back exactly when no name has a single character.
  lemma NamedNetworksComeBack(entries: seq<Entry>)
    requires AreEntries(entries) && EndsInText(entries)
    ensures Scan(Print(AllLines(entries))) == NamedFrom(1, entries) <==>
      forall i :: 0 <= i < |entries| ==> |entries[i].network.ssid| != 1
  {
    ScanPrinted(entries);
    NamedCounts(entries);
  }
}
