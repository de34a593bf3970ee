/** The watch client's splitting of a streamed response into lines, each an event in JSON. */
module LineStream {
  import opened Resources
  import opened Strings

  // ---------------------------------------------------------------- what the text says as a whole

  // The lines that a newline ends, trimmed, without the blank ones.
  function Lines(s: string): seq<string> {
    var i := Index(s, '\n');
    if i == -1 then []
    else
      Kept(s[..i]) + Lines(s[i + 1..])
  }

  function Kept(line: string): seq<string> {
    if Trim(JavaScript, line) == "" then [] else [Trim(JavaScript, line)]
  }

  // What follows the last newline.
  function Rest(s: string): (r: string)
    ensures '\n' !in r
  {
    var i := Index(s, '\n');
    if i == -1 then s else Rest(s[i + 1..])
  }

  // The events in the lines, up to the first that is not one.
  function Events<T>(parse: string -> Option<T>, lines: seq<string>): seq<T> {
    if lines == [] || parse(lines[0]).None? then [] else [parse(lines[0]).value] + Events(parse, lines[1..])
  }

  predicate AllParse<T>(parse: string -> Option<T>, lines: seq<string>) {
    forall i :: 0 <= i < |lines| ==> parse(lines[i]).Some?
  }

  lemma NoLines(s: string)
    requires '\n' !in s
    ensures Lines(s) == [] && Rest(s) == s
  {
  }

  lemma LinesHead(line: string, rest: string)
    requires '\n' !in line
    ensures Lines(line + "\n" + rest) == Kept(line) + Lines(rest)
    ensures Rest(line + "\n" + rest) == Rest(rest)
  {
    hide Kept, Index;
    var s := line + "\n" + rest;
    assert s[..|line|] == line && s[|line| + 1..] == rest;
    IndexUnique(s, '\n', |line|);
  }

  lemma {:induction false} LinesAppend(s: string, t: string)
    ensures Lines(s + t) == Lines(s) + Lines(Rest(s) + t)
    ensures Rest(s + t) == Rest(Rest(s) + t)
    decreases |s|
  {
    hide *;
    var i := Index(s, '\n');
    if i == -1 {
      NoLines(s);
    } else {
      var line, more := s[..i], s[i + 1..];
      assert s == line + "\n" + more && s + t == line + "\n" + (more + t);
      LinesHead(line, more);
      LinesHead(line, more + t);
      LinesAppend(more, t);
    }
  }

  lemma {:induction false} EventsAppend<T>(parse: string -> Option<T>, a: seq<string>, b: seq<string>)
    ensures Events(parse, a + b) == Events(parse, a) + if AllParse(parse, a) then Events(parse, b) else []
    ensures AllParse(parse, a + b) <==> AllParse(parse, a) && AllParse(parse, b)
    decreases |a|
  {
    if a == [] {
      assert a + b == b;
    } else {
      assert (a + b)[1..] == a[1..] + b;
      AllParseCons(parse, a);
      AllParseCons(parse, a + b);
      EventsAppend(parse, a[1..], b);
    }
  }

  lemma AllParseCons<T>(parse: string -> Option<T>, a: seq<string>)
    requires a != []
    ensures AllParse(parse, a) <==> parse(a[0]).Some? && AllParse(parse, a[1..])
  {
    assert forall i :: 0 < i < |a| ==> a[i] == a[1..][i - 1];
  }

  // One turn of the loop over the text: done are the lines handled so far.
  lemma NextLine<T>(parse: string -> Option<T>, whole: string, done: seq<string>, text: string, pos: nat)
    requires pos == Index(text, '\n') as int
    requires Lines(whole) == done + Lines(text) && Rest(whole) == Rest(text) && AllParse(parse, done)
    ensures Rest(whole) == Rest(text[pos + 1..])
    ensures Lines(whole) == done + Kept(text[..pos]) + Lines(text[pos + 1..])
    ensures var line := Trim(JavaScript, text[..pos]); line != "" ==>
      if parse(line).Some? then
        AllParse(parse, done + [line]) && Events(parse, done + [line]) == Events(parse, done) + [parse(line).value]
      else
        !AllParse(parse, Lines(whole)) && Events(parse, Lines(whole)) == Events(parse, done)
  {
    hide Lines, Rest, Trim, AllParse, Index;
    var line, more := Trim(JavaScript, text[..pos]), text[pos + 1..];
    assert text == text[..pos] + "\n" + more;
    LinesHead(text[..pos], more);
    assert Lines(whole) == done + Kept(text[..pos]) + Lines(more);
    if line != "" {
      AllParseCons(parse, [line]);
      AllParseNone(parse);
      EventsAppend(parse, done, [line]);
      EventsAppend(parse, done + [line], Lines(more));
    }
  }

  lemma AllParseNone<T>(parse: string -> Option<T>)
    ensures AllParse(parse, []) && Events(parse, []) == []
  {
  }

  // ---------------------------------------------------------------- the stream

  class Stream<T> {
    const parse: string -> Option<T>
    var text: string
    var queue: seq<T>
    var failed: bool
    ghost var input: string

    ghost predicate Valid()
      reads this
    {
      && queue == Events(parse, Lines(input))
      && (failed <==> !AllParse(parse, Lines(input)))
      && (!failed ==> text == Rest(input))
    }

    constructor (parse: string -> Option<T>)
      ensures Valid() && input == "" && this.parse == parse
    {
      this.parse := parse;
      text, queue, failed, input := "", [], false, "";
    }

    // One chunk. A line that does not parse ends the stream.
    method Push(chunk: string)
      requires Valid()
      modifies this
      ensures Valid() && input == old(input) + chunk
    {
      hide Lines, Rest, Trim, AllParse, Index, Events;
      ghost var before := Lines(input);
      ghost var whole := Rest(input) + chunk;
      LinesAppend(input, chunk);
      EventsAppend(parse, before, Lines(whole));
      input := input + chunk;
      if failed {
        return;
      }
      text := text + chunk;
      ghost var done: seq<string> := [];
      AllParseNone(parse);
      while Index(text, '\n') > -1
        invariant Lines(whole) == done + Lines(text) && Rest(whole) == Rest(text)
        invariant AllParse(parse, done) && queue == Events(parse, before) + Events(parse, done)
        invariant !failed && input == old(input) + chunk
        decreases |text|
      {
        var pos := Index(text, '\n');
        var line := Trim(JavaScript, text[..pos]);
        NextLine(parse, whole, done, text, pos);
        if line != "" {
          if parse(line).None? {
            failed := true;
            return;
          }
          queue := queue + [parse(line).value];
          done := done + [line];
        }
        text := text[pos + 1..];
      }
      NoLines(text);
      assert Lines(whole) == done;
    }
  }

  // However a text is cut into chunks, the events enqueued are those of the lines of the text.
  method PushAll<T>(parse: string -> Option<T>, chunks: seq<string>) returns (stream: Stream<T>)
    ensures stream.queue == Events(parse, Lines(Concat(chunks)))
    ensures stream.failed <==> !AllParse(parse, Lines(Concat(chunks)))
    ensures !stream.failed ==> stream.text == Rest(Concat(chunks))
  {
    stream := new Stream(parse);
    for i := 0 to |chunks|
      invariant fresh(stream) && stream.Valid() && stream.parse == parse && stream.input == Concat(chunks[..i])
    {
      stream.Push(chunks[i]);
      assert chunks[..i + 1][..i] == chunks[..i];
    }
    assert chunks[..|chunks|] == chunks;
  }

  // ---------------------------------------------------------------- round trip

  function PrintAll<T>(print_: T -> string, events: seq<T>): string {
    if events == [] then "" else print_(events[0]) + "\n" + PrintAll(print_, events[1..])
  }

  // An encoding that fits on a line and can be parsed.
  ghost predicate OnOneLine<T>(print_: T -> string, parse: string -> Option<T>, e: T) {
    var line := print_(e);
    parse(line) == Some(e) && line != "" && Trim(JavaScript, line) == line && '\n' !in line
  }

  lemma PrintedFirst<T>(print_: T -> string, parse: string -> Option<T>, e: T, more: string)
    requires OnOneLine(print_, parse, e)
    ensures Events(parse, Lines(print_(e) + "\n" + more)) == [e] + Events(parse, Lines(more))
    ensures Rest(print_(e) + "\n" + more) == Rest(more)
  {
    hide Lines, Rest, Trim;
    var line := print_(e);
    LinesHead(line, more);
    assert ([line] + Lines(more))[1..] == Lines(more);
  }

  lemma {:induction false} PrintedEventsComeBack<T>(print_: T -> string, parse: string -> Option<T>, events: seq<T>)
    requires forall i :: 0 <= i < |events| ==> OnOneLine(print_, parse, events[i])
    ensures Events(parse, Lines(PrintAll(print_, events))) == events
    ensures Rest(PrintAll(print_, events)) == ""
    decreases |events|
  {
    hide Lines, Rest, Trim, Kept, Events, OnOneLine;
    if events == [] {
      NoLines("");
      AllParseNone(parse);
    } else {
      PrintedEventsComeBack(print_, parse, events[1..]);
      PrintedFirst(print_, parse, events[0], PrintAll(print_, events[1..]));
      assert events == [events[0]] + events[1..];
    }
  }

  // White space around a printed line and blank lines make no difference.
  lemma PaddedLine(a: string, line: string, b: string, more: string)
    requires AllSpace(JavaScript, a) && AllSpace(JavaScript, b) && '\n' !in a && '\n' !in b && '\n' !in line
    requires line != "" ==> !IsSpace(JavaScript, line[0]) && !IsSpace(JavaScript, line[|line| - 1])
    ensures Lines(a + line + b + "\n" + more) == (if line == "" then [] else [line]) + Lines(more)
  {
    hide Lines, Trim, IsSpace;
    LinesHead(a + line + b, more);
    TrimPadded(JavaScript, a, line, b);
  }
}
