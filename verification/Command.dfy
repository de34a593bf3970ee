/** Commands of supervised processes and the text by which two commands are compared. */
module Command {
  import opened Strings

  datatype CommandSpec = CommandSpec(command: string, args: seq<string>)

  function Parts(c: CommandSpec): seq<string> { [c.command] + c.args }

  // ---------------------------------------------------------------- the text of a command

  function Hex(d: nat): char
    requires d < 16
  {
    "0123456789abcdef"[d]
  }

  // The letter that stands for a control character after a backslash, and back.
  function Letter(c: char): char {
    if c == '\U{7}' then 'a' else if c == '\U{8}' then 'b' else if c == '\t' then 't'
    else if c == '\n' then 'n' else if c == '\U{B}' then 'v' else if c == '\U{C}' then 'f' else 'r'
  }

  function Control(l: char): char {
    if l == 'a' then '\U{7}' else if l == 'b' then '\U{8}' else if l == 't' then '\t'
    else if l == 'n' then '\n' else if l == 'v' then '\U{B}' else if l == 'f' then '\U{C}'
    else if l == 'r' then '\r' else l
  }

  // One character between double quotes, as strconv.Quote writes it; beyond ASCII as it is.
  function Escape(c: char): (e: string)
    ensures |e| > 0
  {
    if c == '"' || c == '\\' then ['\\', c]
    else if '\U{7}' <= c <= '\U{D}' then ['\\', Letter(c)]
    else if c < ' ' || c == '\U{7F}' then ['\\', 'x', Hex(c as int / 16), Hex(c as int % 16)]
    else [c]
  }

  function EscapeAll(s: string): string {
    if s == "" then "" else Escape(s[0]) + EscapeAll(s[1..])
  }

  function Quote(s: string): string { "\"" + EscapeAll(s) + "\"" }

  function Show(s: string): string { if ' ' in s then Quote(s) else s }

  function ShowAll(parts: seq<string>): (shown: seq<string>)
    ensures |shown| == |parts| && forall i :: 0 <= i < |parts| ==> shown[i] == Show(parts[i])
  {
    seq(|parts|, i requires 0 <= i < |parts| => Show(parts[i]))
  }

  function Text(c: CommandSpec): string { Join(ShowAll(Parts(c)), ' ') }

  // Printable text without double quote and backslash is quoted by putting quotes around it.
  lemma {:induction false} EscapePrintable(s: string)
    requires forall i :: 0 <= i < |s| ==> ' ' <= s[i] <= '~' && s[i] != '"' && s[i] != '\\'
    ensures EscapeAll(s) == s
    decreases |s|
  {
    if s != "" {
      EscapePrintable(s[1..]);
      assert s == [s[0]] + s[1..];
    }
  }

  lemma QuotePrintable(s: string)
    requires forall i :: 0 <= i < |s| ==> ' ' <= s[i] <= '~' && s[i] != '"' && s[i] != '\\'
    ensures Quote(s) == "\"" + s + "\""
    ensures Show(s) == if ' ' in s then "\"" + s + "\"" else s
  {
    EscapePrintable(s);
  }

  method String(c: CommandSpec) returns (s: string)
    ensures s == Text(c)
  {
    var cmd := [c.command] + c.args;
    for i := 0 to |cmd|
      invariant |cmd| == |Parts(c)|
      invariant forall j :: 0 <= j < i ==> cmd[j] == Show(Parts(c)[j])
      invariant forall j :: i <= j < |cmd| ==> cmd[j] == Parts(c)[j]
    {
      if Index(cmd[i], ' ') >= 0 {
        cmd := cmd[i := Quote(cmd[i])];
      }
    }
    assert cmd == ShowAll(Parts(c));
    s := Join(cmd, ' ');
  }

  // ---------------------------------------------------------------- reading it back

  function HexValue(c: char): nat {
    if '0' <= c <= '9' then (c - '0') as nat
    else if 'a' <= c <= 'f' then (c - 'a') as nat + 10
    else 0
  }

  // The character that the escaped text s begins with, and how many characters stand for it.
  function Unescape(s: string): (char, nat)
    requires s != ""
    ensures 1 <= Unescape(s).1
  {
    if s[0] != '\\' || |s| == 1 then (s[0], 1)
    else if s[1] == 'x' then
      if |s| < 4 then (s[0], 1) else ((HexValue(s[2]) * 16 + HexValue(s[3])) as char, 4)
    else
      (Control(s[1]), 2)
  }

  lemma UnescapeEscape(c: char, rest: string)
    ensures Unescape(Escape(c) + rest) == (c, |Escape(c)|)
    ensures Escape(c)[0] != '"'
  {
    hide Hex, HexValue;
    if c < ' ' || c == '\U{7F}' {
      HexRead(c as int / 16);
      HexRead(c as int % 16);
    }
  }

  lemma HexRead(d: nat)
    requires d < 16
    ensures HexValue(Hex(d)) == d
  {
  }

  // The text up to the closing quote, and what follows the quote.
  function Unquote(s: string): (string, string)
    ensures |Unquote(s).1| <= |s|
    decreases |s|
  {
    if s == "" then ("", "")
    else if s[0] == '"' then ("", s[1..])
    else
      var (c, n) := Unescape(s);
      if n > |s| then ("", "")
      else
        var (text, rest) := Unquote(s[n..]);
        ([c] + text, rest)
  }

  lemma UnquoteEscape(c: char, tail: string)
    ensures Unquote(Escape(c) + tail) == ([c] + Unquote(tail).0, Unquote(tail).1)
  {
    hide Escape, Unescape;
    var s := Escape(c) + tail;
    UnescapeEscape(c, tail);
    assert s[0] == Escape(c)[0] && s[|Escape(c)|..] == tail;
  }

  lemma {:induction false} UnquoteQuote(s: string, rest: string)
    ensures Unquote(EscapeAll(s) + "\"" + rest) == (s, rest)
    decreases |s|
  {
    if s == "" {
      assert EscapeAll(s) + "\"" + rest == "\"" + rest;
    } else {
      var tail := EscapeAll(s[1..]) + "\"" + rest;
      assert EscapeAll(s) + "\"" + rest == Escape(s[0]) + tail;
      UnquoteEscape(s[0], tail);
      UnquoteQuote(s[1..], rest);
      assert s == [s[0]] + s[1..];
    }
  }

  // A part ends at a space, or at its closing quote when it begins with one.
  function Read(s: string): (string, string)
    ensures |Read(s).1| <= |s|
  {
    if s != "" && s[0] == '"' then Unquote(s[1..])
    else
      var i := Index(s, ' ');
      if i == -1 then (s, "") else (s[..i], s[i..])
  }

  function ReadAll(s: string): (parts: seq<string>)
    decreases |s|
  {
    var (part, rest) := Read(s);
    if rest == "" then [part] else [part] + ReadAll(rest[1..])
  }

  // A part that is not quoted does not look as if it were.
  predicate Plain(parts: seq<string>) {
    forall i :: 0 <= i < |parts| && ' ' !in parts[i] ==> parts[i] == "" || parts[i][0] != '"'
  }

  lemma ReadQuoted(part: string, rest: string)
    ensures Read(Quote(part) + rest) == (part, rest)
  {
    hide Unquote, EscapeAll;
    var s := Quote(part) + rest;
    assert s[0] == '"' && s[1..] == EscapeAll(part) + "\"" + rest;
    UnquoteQuote(part, rest);
  }

  lemma ReadPlain(part: string, rest: string)
    requires ' ' !in part && (part == "" || part[0] != '"') && (rest == "" || rest[0] == ' ')
    ensures Read(part + rest) == (part, rest)
  {
    hide Unquote, Index;
    var s := part + rest;
    if rest == "" {
      assert s == part;
    } else {
      assert s[..|part|] == part && s[|part|..] == rest;
      IndexUnique(s, ' ', |part|);
    }
  }

  lemma ReadShow(part: string, rest: string)
    requires Plain([part]) && (rest == "" || rest[0] == ' ')
    ensures Read(Show(part) + rest) == (part, rest)
  {
    hide Read, Quote;
    assert [part][0] == part;
    if ' ' in part {
      ReadQuoted(part, rest);
    } else {
      ReadPlain(part, rest);
    }
  }

  lemma ReadAllOne(part: string)
    requires Plain([part])
    ensures ReadAll(Show(part)) == [part]
  {
    hide Show, Read, Plain;
    ReadShow(part, "");
    assert Show(part) + "" == Show(part);
  }

  lemma ReadAllMore(part: string, more: string)
    requires Plain([part])
    ensures ReadAll(Show(part) + [' '] + more) == [part] + ReadAll(more)
  {
    hide Show, Read, Plain;
    var rest := [' '] + more;
    ReadShow(part, rest);
    assert Show(part) + [' '] + more == Show(part) + rest && rest[1..] == more;
  }

  lemma JoinShown(parts: seq<string>)
    requires |parts| > 0
    ensures Join(ShowAll(parts), ' ') ==
      if |parts| == 1 then Show(parts[0]) else Show(parts[0]) + [' '] + Join(ShowAll(parts[1..]), ' ')
  {
    hide Show;
    assert |parts| > 1 ==> ShowAll(parts)[1..] == ShowAll(parts[1..]);
  }

  lemma PlainSplit(parts: seq<string>)
    requires |parts| > 0 && Plain(parts)
    ensures Plain([parts[0]]) && Plain(parts[1..])
  {
  }

  lemma {:induction false} ReadAllShown(parts: seq<string>)
    requires |parts| > 0 && Plain(parts)
    ensures ReadAll(Join(ShowAll(parts), ' ')) == parts
    decreases |parts|
  {
    hide Show, ReadAll, Plain, Join, ShowAll;
    PlainSplit(parts);
    JoinShown(parts);
    if |parts| == 1 {
      ReadAllOne(parts[0]);
      assert parts == [parts[0]];
    } else {
      ReadAllMore(parts[0], Join(ShowAll(parts[1..]), ' '));
      ReadAllShown(parts[1..]);
      assert parts == [parts[0]] + parts[1..];
    }
  }

  // Commands whose space-free parts do not begin with a double quote can be read back from their
  // text.
  lemma TextReadsBack(c: CommandSpec)
    requires Plain(Parts(c))
    ensures ReadAll(Text(c)) == Parts(c)
  {
    ReadAllShown(Parts(c));
  }

  // A text that a part with a space in it is quoted to.
  predicate IsQuoted(s: string) {
    s != "" && ' ' in Unquote(s[1..]).0 && s == Quote(Unquote(s[1..]).0)
  }

  // Consecutive parts that could as well be the pieces of one quoted part.
  predicate Merges(parts: seq<string>, i: nat, j: nat) {
    i < j <= |parts| && IsQuoted(Join(parts[i..j], ' '))
  }

  // No part holds a space, and no consecutive ones look like a part that does.
  predicate Unmistakable(c: CommandSpec) {
    var parts := Parts(c);
    && (forall i :: 0 <= i < |parts| ==> ' ' !in parts[i])
    && (forall i: nat, j: nat :: i < j <= |parts| ==> !Merges(parts, i, j))
  }

  lemma QuotedIsQuoted(p: string)
    requires ' ' in p
    ensures IsQuoted(Quote(p)) && Unquote(Quote(p)[1..]).0 == p
  {
    hide EscapeAll, Unquote;
    UnquoteQuote(p, "");
    assert Quote(p)[1..] == EscapeAll(p) + "\"" + "";
  }

  // A command is identified by its text among all commands exactly if it is unmistakable.
  lemma TextIdentifies(c: CommandSpec)
    ensures Unmistakable(c) <==> forall d :: Text(d) == Text(c) ==> d == c
  {
    if Unmistakable(c) {
      forall d | Text(d) == Text(c) ensures d == c {
        SameTextSame(c, d);
      }
    } else if i: nat :| i < |Parts(c)| && ' ' in Parts(c)[i] {
      var d := SpacedTextIsShared(c, i);
    } else {
      var i: nat, j: nat :| i < j <= |Parts(c)| && Merges(Parts(c), i, j);
      var d := MergedTextIsShared(c, i, j);
    }
  }

  lemma SameTextSame(c: CommandSpec, d: CommandSpec)
    requires Unmistakable(c) && Text(d) == Text(c)
    ensures d == c
  {
    var xs, ys := Parts(c), Parts(d);
    assert ShowAll(xs) == xs;
    SplitJoin(xs, ' ');
    if k: nat :| k < |ys| && ' ' in ys[k] {
      SpacedPartMerges(ys, k);
      assert false;
    }
    assert ShowAll(ys) == ys;
    SplitJoin(ys, ' ');
    SamePartsSame(c, d);
  }

  lemma SamePartsSame(c: CommandSpec, d: CommandSpec)
    requires Parts(c) == Parts(d)
    ensures c == d
  {
    assert c.args == Parts(c)[1..] && d.args == Parts(d)[1..];
    assert c.command == Parts(c)[0] && d.command == Parts(d)[0];
  }

  // The pieces of a text with a quoted part in it merge.
  lemma SpacedPartMerges(ys: seq<string>, k: nat)
    requires k < |ys| && ' ' in ys[k]
    ensures var xs := Split(Join(ShowAll(ys), ' '), ' '); exists i: nat, j: nat :: i < j <= |xs| && Merges(xs, i, j)
  {
    hide ShowAll, Split, Join, IsQuoted, Quote;
    var shown := ShowAll(ys);
    var quoted := Quote(ys[k]);
    var pieces := Split(quoted, ' ');
    var before, after := Pieces(shown[..k]), Pieces(shown[k + 1..]);
    assert shown == shown[..k] + [quoted] + shown[k + 1..];
    PiecesAppend(shown[..k] + [quoted], shown[k + 1..]);
    PiecesAppend(shown[..k], [quoted]);
    PiecesOne(quoted);
    PiecesJoin(shown);
    var xs := before + pieces + after;
    assert xs[|before|..|before| + |pieces|] == pieces;
    JoinSplit(quoted, ' ');
    QuotedIsQuoted(ys[k]);
    assert Merges(xs, |before|, |before| + |pieces|);
  }

  // The pieces of all parts.
  function Pieces(parts: seq<string>): seq<string> {
    if parts == [] then [] else Split(parts[0], ' ') + Pieces(parts[1..])
  }

  lemma PiecesOne(s: string)
    ensures Pieces([s]) == Split(s, ' ')
  {
    assert [s][1..] == [];
  }

  lemma {:induction false} PiecesAppend(a: seq<string>, b: seq<string>)
    ensures Pieces(a + b) == Pieces(a) + Pieces(b)
    decreases |a|
  {
    hide Split;
    if a == [] {
      assert a + b == b;
    } else {
      assert (a + b)[1..] == a[1..] + b;
      PiecesAppend(a[1..], b);
    }
  }

  lemma {:induction false} PiecesJoin(parts: seq<string>)
    requires parts != []
    ensures Split(Join(parts, ' '), ' ') == Pieces(parts)
    decreases |parts|
  {
    hide Split, Index;
    if |parts| == 1 {
      PiecesOne(parts[0]);
      assert parts == [parts[0]];
    } else {
      PiecesJoin(parts[1..]);
      SplitAppend(parts[0], Join(parts[1..], ' '), ' ');
    }
  }

  // Parts without a space are shown as they are, those with one are quoted.
  lemma ShowMerged(a: seq<string>, p: string, b: seq<string>)
    requires (forall k :: 0 <= k < |a| ==> ' ' !in a[k]) && (forall k :: 0 <= k < |b| ==> ' ' !in b[k]) && ' ' in p
    ensures ShowAll(a + [p] + b) == a + [Quote(p)] + b
  {
    hide Quote;
  }

  lemma ShowSpaceFree(parts: seq<string>)
    requires forall k :: 0 <= k < |parts| ==> ' ' !in parts[k]
    ensures ShowAll(parts) == parts
  {
  }

  lemma MergedTextIsShared(c: CommandSpec, i: nat, j: nat) returns (d: CommandSpec)
    requires forall k :: 0 <= k < |Parts(c)| ==> ' ' !in Parts(c)[k]
    requires Merges(Parts(c), i, j)
    ensures d != c && Text(d) == Text(c)
  {
    hide Join, Quote, Unquote, ShowAll, Show;
    var xs := Parts(c);
    var a, b := xs[..i], xs[j..];
    var quoted := Join(xs[i..j], ' ');
    var p := Unquote(quoted[1..]).0;
    var ys := a + [p] + b;
    d := CommandSpec(ys[0], ys[1..]);
    assert Parts(d) == ys && ys[i] == p;
    ShowSpaceFree(xs);
    ShowMerged(a, p, b);
    JoinMiddle(a, xs[i..j], b, ' ');
    assert xs == a + xs[i..j] + b;
  }

  // Among commands whose space-free parts do not begin with a double quote, texts tell all apart;
  // and against every other command, exactly those without a space.
  lemma PlainTexts(c: CommandSpec)
    requires Plain(Parts(c))
    ensures forall d :: Plain(Parts(d)) ==> (Text(c) == Text(d) <==> c == d)
    ensures (forall d :: Text(d) == Text(c) ==> d == c) <==> forall i :: 0 <= i < |Parts(c)| ==> ' ' !in Parts(c)[i]
  {
    hide Text;
    forall d | Plain(Parts(d)) && Text(c) == Text(d) ensures c == d {
      TextReadsBack(c);
      TextReadsBack(d);
      SamePartsSame(c, d);
    }
    TextIdentifies(c);
    forall i: nat, j: nat | i < j <= |Parts(c)| ensures !Merges(Parts(c), i, j) || ' ' in Parts(c)[i] {
      if Merges(Parts(c), i, j) {
        JoinFirst(Parts(c)[i..j]);
        assert Join(Parts(c)[i..j], ' ')[0] == '"';
      }
    }
  }

  lemma JoinFirst(parts: seq<string>)
    requires parts != [] && Join(parts, ' ') != "" && Join(parts, ' ')[0] != ' '
    ensures parts[0] != "" && parts[0][0] == Join(parts, ' ')[0]
  {
  }

  // Without a condition on the others, every command with a space in it shares its text with another
  // one, whose parts are the pieces of that text.
  lemma SpacedTextIsShared(c: CommandSpec, i: nat) returns (d: CommandSpec)
    requires i < |Parts(c)| && ' ' in Parts(c)[i]
    ensures d != c && Text(d) == Text(c)
  {
    var pieces := Split(Text(c), ' ');
    d := CommandSpec(pieces[0], pieces[1..]);
    assert Parts(d) == pieces;
    assert ShowAll(pieces) == pieces;
    JoinSplit(Text(c), ' ');
  }
}
