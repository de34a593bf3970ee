/** What the program uses of its languages' string libraries. */
module Strings {

  // The first position of c, or -1.
  function Index(s: string, c: char): (i: int)
    ensures -1 <= i < |s|
    ensures i >= 0 ==> s[i] == c && forall k :: 0 <= k < i ==> s[k] != c
    ensures i == -1 <==> c !in s
  {
    if s == "" then -1
    else if s[0] == c then 0
    else
      var i := Index(s[1..], c);
      assert forall k :: 0 < k < |s| ==> s[k] == s[1..][k - 1];
      if i == -1 then -1 else i + 1
  }

  lemma IndexUnique(s: string, c: char, i: nat)
    requires i < |s| && s[i] == c && forall k :: 0 <= k < i ==> s[k] != c
    ensures Index(s, c) == i
  {
    assert s[i] in s;
  }

  function Split(s: string, sep: char): (parts: seq<string>)
    ensures |parts| > 0
    ensures forall k :: 0 <= k < |parts| ==> sep !in parts[k]
  {
    var i := Index(s, sep);
    if i == -1 then [s] else [s[..i]] + Split(s[i + 1..], sep)
  }

  function Join(parts: seq<string>, sep: char): string
    requires |parts| > 0
  {
    if |parts| == 1 then parts[0] else parts[0] + [sep] + Join(parts[1..], sep)
  }

  lemma {:induction false} JoinSplit(s: string, sep: char)
    ensures Join(Split(s, sep), sep) == s
    decreases |s|
  {
    var i := Index(s, sep);
    if i >= 0 {
      JoinSplit(s[i + 1..], sep);
      assert s == s[..i] + [sep] + s[i + 1..];
    }
  }

  lemma SplitHead(part: string, rest: string, sep: char)
    requires sep !in part
    ensures Split(part + [sep] + rest, sep) == [part] + Split(rest, sep)
  {
    var s := part + [sep] + rest;
    assert s[..|part|] == part && s[|part| + 1..] == rest;
    IndexUnique(s, sep, |part|);
  }

  lemma SplitOne(s: string, sep: char)
    requires sep !in s
    ensures Split(s, sep) == [s]
  {
  }

  lemma {:induction false} SplitAppend(s: string, t: string, sep: char)
    ensures Split(s + [sep] + t, sep) == Split(s, sep) + Split(t, sep)
    decreases |s|
  {
    hide Split, Index;
    var i := Index(s, sep);
    if i == -1 {
      SplitOne(s, sep);
      SplitHead(s, t, sep);
    } else {
      var head, more := s[..i], s[i + 1..];
      assert s == head + [sep] + more && s + [sep] + t == head + [sep] + (more + [sep] + t);
      SplitAppend(more, t, sep);
      SplitHead(head, more, sep);
      SplitHead(head, more + [sep] + t, sep);
    }
  }

  lemma {:induction false} SplitJoin(parts: seq<string>, sep: char)
    requires |parts| > 0 && forall k :: 0 <= k < |parts| ==> sep !in parts[k]
    ensures Split(Join(parts, sep), sep) == parts
    decreases |parts|
  {
    if |parts| > 1 {
      SplitJoin(parts[1..], sep);
      SplitHead(parts[0], Join(parts[1..], sep), sep);
    }
  }

  lemma {:induction false} JoinAppend(a: seq<string>, b: seq<string>, sep: char)
    requires |a| > 0 && |b| > 0
    ensures Join(a + b, sep) == Join(a, sep) + [sep] + Join(b, sep)
    decreases |a|
  {
    if |a| == 1 {
      assert (a + b)[1..] == b;
    } else {
      assert (a + b)[1..] == a[1..] + b;
      JoinAppend(a[1..], b, sep);
      assert Join(a + b, sep) == a[0] + [sep] + (Join(a[1..], sep) + [sep] + Join(b, sep));
    }
  }

  // Joining some neighbours first makes no difference.
  lemma JoinMiddle(a: seq<string>, b: seq<string>, c: seq<string>, sep: char)
    requires b != []
    ensures Join(a + [Join(b, sep)] + c, sep) == Join(a + b + c, sep)
  {
    var middle := [Join(b, sep)];
    assert Join(middle, sep) == Join(b, sep);
    hide Join;
    if a == [] {
      assert a + middle == middle && a + b == b;
    } else {
      JoinAppend(a, middle, sep);
      JoinAppend(a, b, sep);
    }
    if c == [] {
      assert a + middle + c == a + middle && a + b + c == a + b;
    } else {
      JoinAppend(a + middle, c, sep);
      JoinAppend(a + b, c, sep);
    }
  }

  // The languages differ in one character each about what white space is.
  datatype Language = Go | JavaScript

  predicate IsSpace(l: Language, c: char) {
    || '\t' <= c <= '\r' || c == ' ' || c == '\U{A0}' || c == '\U{1680}' || '\U{2000}' <= c <= '\U{200A}'
    || c in {'\U{2028}', '\U{2029}', '\U{202F}', '\U{205F}', '\U{3000}'}
    || c == if l == Go then '\U{85}' else '\U{FEFF}'
  }

  function TrimLeft(l: Language, s: string): string {
    if s != "" && IsSpace(l, s[0]) then TrimLeft(l, s[1..]) else s
  }

  function TrimRight(l: Language, s: string): string {
    if s != "" && IsSpace(l, s[|s| - 1]) then TrimRight(l, s[..|s| - 1]) else s
  }

  function Trim(l: Language, s: string): string { TrimRight(l, TrimLeft(l, s)) }

  lemma TrimEnded(l: Language, s: string)
    requires s != "" && !IsSpace(l, s[0]) && !IsSpace(l, s[|s| - 1])
    ensures Trim(l, s + "\n") == s
  {
    var t := s + "\n";
    assert IsSpace(l, '\n');
    hide IsSpace;
    assert TrimLeft(l, t) == t && TrimRight(l, s) == s;
    assert t[|t| - 1] == '\n' && t[..|t| - 1] == s;
    assert TrimRight(l, t) == TrimRight(l, t[..|t| - 1]);
  }

  predicate AllSpace(l: Language, s: string) { forall i :: 0 <= i < |s| ==> IsSpace(l, s[i]) }

  lemma {:induction false} TrimLeftPadded(l: Language, a: string, s: string)
    requires AllSpace(l, a)
    ensures TrimLeft(l, a + s) == TrimLeft(l, s)
    decreases |a|
  {
    hide IsSpace;
    if a == "" {
      assert a + s == s;
    } else {
      assert (a + s)[1..] == a[1..] + s;
      TrimLeftPadded(l, a[1..], s);
    }
  }

  lemma {:induction false} TrimRightPadded(l: Language, s: string, b: string)
    requires AllSpace(l, b)
    ensures TrimRight(l, s + b) == TrimRight(l, s)
    decreases |b|
  {
    hide IsSpace;
    if b == "" {
      assert s + b == s;
    } else {
      assert (s + b)[..|s + b| - 1] == s + b[..|b| - 1];
      TrimRightPadded(l, s, b[..|b| - 1]);
    }
  }

  // Trimming removes the white space around a text, and nothing else of it.
  lemma TrimPadded(l: Language, a: string, s: string, b: string)
    requires AllSpace(l, a) && AllSpace(l, b)
    requires s != "" ==> !IsSpace(l, s[0]) && !IsSpace(l, s[|s| - 1])
    ensures Trim(l, a + s + b) == s
  {
    hide IsSpace;
    TrimRightPadded(l, s, b);
    if s == "" {
      TrimLeftPadded(l, a + b, "");
      assert a + s + b == a + b + "";
    } else {
      TrimLeftPadded(l, a, s + b);
      assert a + s + b == a + (s + b) && TrimLeft(l, s + b) == s + b;
    }
  }

  function Concat(parts: seq<string>): string {
    if parts == [] then "" else Concat(parts[..|parts| - 1]) + parts[|parts| - 1]
  }
}
