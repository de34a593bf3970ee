/** The memorable-password generator: weighted sampling, words grown from a table of bigrams, and
    the length arithmetic that puts digits and words together. Random numbers are arbitrary. */
module PasswordGen {
  import opened Strings

  datatype Bigram = Bigram(text: string, weight: nat)

  datatype WeightedChar = WeightedChar(c: char, weight: nat)

  datatype Tables = Tables(bigrams: seq<Bigram>, successors: map<string, seq<WeightedChar>>)

  // ---------------------------------------------------------------- weighted sampling

  function Sum(ws: seq<nat>): nat {
    if ws == [] then 0 else Sum(ws[..|ws| - 1]) + ws[|ws| - 1]
  }

  predicate Positive(ws: seq<nat>) {
    |ws| > 0 && forall i :: 0 <= i < |ws| ==> ws[i] > 0
  }

  // The running sum after j weights.
  function Upto(ws: seq<nat>, j: nat): nat
    requires j <= |ws|
  {
    Sum(ws[..j])
  }

  lemma UptoNext(ws: seq<nat>, j: nat)
    requires j < |ws|
    ensures Upto(ws, j + 1) == Upto(ws, j) + ws[j]
  {
    assert ws[..j + 1][..j] == ws[..j];
  }

  lemma UptoAll(ws: seq<nat>)
    ensures Upto(ws, |ws|) == Sum(ws)
  {
    assert ws[..|ws|] == ws;
  }

  lemma {:induction false} UptoGrows(ws: seq<nat>, i: nat, j: nat)
    requires i <= j <= |ws|
    ensures Upto(ws, i) <= Upto(ws, j)
    ensures Positive(ws) && i < j ==> Upto(ws, i) < Upto(ws, j)
    decreases j - i
  {
    if i < j {
      UptoNext(ws, i);
      UptoGrows(ws, i + 1, j);
    }
  }

  // The index that the draw k selects: the first whose running sum, its own weight included,
  // reaches k.
  predicate Selects(ws: seq<nat>, k: nat, i: nat) {
    i < |ws| && Upto(ws, i + 1) >= k && forall j :: 0 < j <= i ==> Upto(ws, j) < k
  }

  // The panic behind the second loop is unreachable.
  method WeightedRandInt(ws: seq<nat>) returns (i: nat, k: nat)
    requires Positive(ws)
    ensures k < Sum(ws) && Selects(ws, k, i)
  {
    var maxWeight := 0;
    for j := 0 to |ws|
      invariant maxWeight == Upto(ws, j)
    {
      UptoNext(ws, j);
      maxWeight := maxWeight + ws[j];
    }
    UptoAll(ws);
    UptoGrows(ws, 0, |ws|);
    var draw: nat :| draw < maxWeight;
    k := draw;
    var sum := 0;
    i := 0;
    while i < |ws|
      invariant i <= |ws| && sum == Upto(ws, i)
      invariant forall j :: 0 < j <= i ==> Upto(ws, j) < draw
    {
      UptoNext(ws, i);
      sum := sum + ws[i];
      if sum >= draw {
        return;
      }
      i := i + 1;
    }
    assert false;
  }

  // The draws that select i.
  ghost function Draws(ws: seq<nat>, i: nat): set<nat> {
    set k: nat | k < Sum(ws) && Selects(ws, k, i)
  }

  ghost function Interval(lo: nat, hi: nat): set<nat>
    requires lo <= hi
    ensures |Interval(lo, hi)| == hi - lo
    ensures forall k: nat :: k in Interval(lo, hi) <==> lo <= k < hi
    decreases hi - lo
  {
    if lo == hi then {} else Interval(lo, hi - 1) + {hi - 1}
  }

  // Exactly: the first index gets one draw too many and the last one too few, so every count is
  // within one of the weight, and equal to it for a single weight and in between.
  lemma DrawCounts(ws: seq<nat>, i: nat)
    requires Positive(ws) && i < |ws|
    ensures |Draws(ws, i)| == ws[i] + (if i == 0 then 1 else 0) - (if i == |ws| - 1 then 1 else 0)
  {
    hide Sum, Upto, Selects, Interval;
    var lo := if i == 0 then 0 else Upto(ws, i) + 1;
    var hi := if i == |ws| - 1 then Sum(ws) else Upto(ws, i + 1) + 1;
    UptoNext(ws, i);
    UptoGrows(ws, i + 1, |ws|);
    UptoAll(ws);
    UptoNone(ws);
    SelectsRange(ws, i);
    assert Draws(ws, i) == Interval(lo, hi);
  }

  lemma UptoNone(ws: seq<nat>)
    ensures Upto(ws, 0) == 0
  {
  }

  lemma SelectsRange(ws: seq<nat>, i: nat)
    requires i < |ws|
    ensures forall k: nat :: Selects(ws, k, i) <==> (i == 0 || Upto(ws, i) < k) && k <= Upto(ws, i + 1)
  {
    hide Sum, Upto;
    forall k: nat ensures Selects(ws, k, i) <==> (i == 0 || Upto(ws, i) < k) && k <= Upto(ws, i + 1) {
      if i > 0 && Upto(ws, i) < k {
        forall j | 0 < j <= i ensures Upto(ws, j) < k { UptoGrows(ws, j, i); }
      }
    }
  }

  // ---------------------------------------------------------------- words

  function Lower(c: char): char {
    if 'A' <= c <= 'Z' then c - 'A' + 'a' else c
  }

  // The key under which the successors of two characters are found.
  function Pair(c: char, d: char): string { [Lower(c), Lower(d)] }

  predicate WellFormed(t: Tables) {
    && |t.bigrams| > 0
    && (forall i :: 0 <= i < |t.bigrams| ==>
          var b := t.bigrams[i]; b.weight > 0 && |b.text| == 2 && Pair(b.text[0], b.text[1]) in t.successors)
    && (forall p :: p in t.successors ==>
          |t.successors[p]| > 0 && forall i :: 0 <= i < |t.successors[p]| ==> t.successors[p][i].weight > 0)
  }

  predicate StartsWord(t: Tables, w: string) {
    exists i :: 0 <= i < |t.bigrams| && t.bigrams[i].text <= w
  }

  predicate Follows(t: Tables, c: char, d: char, e: char) {
    Pair(c, d) in t.successors && exists i :: 0 <= i < |t.successors[Pair(c, d)]| && t.successors[Pair(c, d)][i].c == e
  }

  // A word as the table grows it: it starts with a listed bigram, every pair in it has successors,
  // and every further character is one of those of the pair before it.
  ghost predicate IsWord(t: Tables, w: string) {
    && |w| >= 2 && StartsWord(t, w)
    && (forall i :: 0 <= i < |w| - 1 ==> Pair(w[i], w[i + 1]) in t.successors)
    && (forall i :: 0 <= i < |w| - 2 ==> Follows(t, w[i], w[i + 1], w[i + 2]))
  }

  lemma WordGrows(t: Tables, w: string, c: char)
    requires IsWord(t, w) && Follows(t, w[|w| - 2], w[|w| - 1], c) && Pair(w[|w| - 1], c) in t.successors
    ensures IsWord(t, w + [c])
  {
    hide Follows, Pair;
    var j :| 0 <= j < |t.bigrams| && t.bigrams[j].text <= w;
    assert t.bigrams[j].text <= w + [c];
  }

  // No listed successor leads to a pair without successors, so no draw is thrown away.
  ghost predicate Closed(t: Tables) {
    forall c, d, e :: Follows(t, c, d, e) ==> Pair(d, e) in t.successors
  }

  datatype WordResult = Word(text: string) | WordTooShort | OutOfDraws

  // attempts bounds the draws of the loop, which the code does not bound.
  method GenerateWord(t: Tables, length: int, attempts: nat) returns (r: WordResult)
    requires WellFormed(t)
    ensures r.WordTooShort? <==> length < 2
    ensures r.Word? ==> |r.text| == length && IsWord(t, r.text)
    ensures Closed(t) && length >= 2 && attempts >= length - 2 ==> r.Word?
  {
    if length < 2 {
      return WordTooShort;
    }
    var b, _ := WeightedRandInt(seq(|t.bigrams|, i requires 0 <= i < |t.bigrams| => t.bigrams[i].weight));
    var token := t.bigrams[b].text;
    assert StartsWord(t, token);
    if length == 2 {
      return Word(token);
    }
    for draws := 0 to attempts
      invariant IsWord(t, token) && |token| < length
      invariant Closed(t) ==> |token| == 2 + draws
    {
      var n := |token|;
      var nextChars := t.successors[Pair(token[n - 2], token[n - 1])];
      var i, _ := WeightedRandInt(seq(|nextChars|, i requires 0 <= i < |nextChars| => nextChars[i].weight));
      var newToken := token + [nextChars[i].c];
      assert Follows(t, token[n - 2], token[n - 1], newToken[n]);
      if Pair(newToken[n - 1], newToken[n]) in t.successors {
        WordGrows(t, token, nextChars[i].c);
        token := newToken;
        if |token| == length {
          return Word(token);
        }
      }
    }
    return OutOfDraws;
  }

  // ---------------------------------------------------------------- passwords

  lemma {:induction false} SumUpdate(ws: seq<nat>, i: nat, x: nat)
    requires i < |ws|
    ensures Sum(ws[i := x]) == Sum(ws) - ws[i] + x
    decreases |ws|
  {
    var n := |ws| - 1;
    if i == n {
      assert ws[i := x][..n] == ws[..n];
    } else {
      assert ws[i := x][..n] == ws[..n][i := x];
      SumUpdate(ws[..n], i, x);
    }
  }

  lemma SumAppend(ws: seq<nat>, x: nat)
    ensures Sum(ws + [x]) == Sum(ws) + x
  {
    assert (ws + [x])[..|ws|] == ws;
  }

  lemma {:induction false} SumBounds(ws: seq<nat>)
    requires forall i :: 0 <= i < |ws| ==> 2 <= ws[i] <= 6
    ensures 2 * |ws| <= Sum(ws) <= 6 * |ws|
    decreases |ws|
  {
    if ws != [] {
      SumBounds(ws[..|ws| - 1]);
    }
  }

  lemma SwapKeeps(ws: seq<nat>, i: nat, j: nat)
    requires i < |ws| && j < |ws|
    ensures var r := ws[i := ws[j]][j := ws[i]]; multiset(r) == multiset(ws) && Sum(r) == Sum(ws)
  {
    hide Sum;
    SumUpdate(ws, i, ws[j]);
    SumUpdate(ws[i := ws[j]], j, ws[i]);
  }

  // rand.Shuffle: any sequence of swaps.
  method Shuffle(ws: seq<nat>) returns (r: seq<nat>)
    ensures |r| == |ws| && multiset(r) == multiset(ws) && Sum(r) == Sum(ws)
  {
    hide Sum;
    r := ws;
    var i := |ws| - 1;
    while i > 0
      invariant i < |ws| || |ws| == 0
      invariant |r| == |ws| && multiset(r) == multiset(ws) && Sum(r) == Sum(ws)
    {
      var j: nat :| j < i + 1;
      SwapKeeps(r, i, j);
      var tmp := r[i];
      r := r[i := r[j]];
      r := r[j := tmp];
      i := i - 1;
    }
  }

  // How a phrase of that length is cut into words.
  ghost predicate Lengths(ws: seq<nat>, phraseLen: nat) {
    |ws| > 0 && Sum(ws) == phraseLen && forall i :: 0 <= i < |ws| ==> 2 <= ws[i] <= phraseLen
  }

  lemma LengthsPermuted(ws: seq<nat>, r: seq<nat>, phraseLen: nat)
    requires Lengths(ws, phraseLen) && |r| == |ws| && multiset(r) == multiset(ws) && Sum(r) == Sum(ws)
    ensures Lengths(r, phraseLen)
  {
    hide Sum;
    forall i | 0 <= i < |r| ensures 2 <= r[i] <= phraseLen {
      assert r[i] in multiset(ws);
    }
  }

  // minWords words of length 2 to 6 leave a rest for one more or for the last one.
  method WordLengths(phraseLen: nat) returns (wordLengths: seq<nat>)
    requires phraseLen >= 3
    ensures Lengths(wordLengths, phraseLen) && |wordLengths| >= phraseLen / 7
  {
    hide Sum;
    var minWords := phraseLen / 7;
    Division(phraseLen, minWords);
    wordLengths := [];
    var wordLenSum := 0;
    EmptySum();
    for i := 0 to minWords
      invariant |wordLengths| == i && wordLenSum == Sum(wordLengths)
      invariant forall j :: 0 <= j < i ==> 2 <= wordLengths[j] <= 6
    {
      var l: nat :| l < 5;
      SumAppend(wordLengths, 2 + l);
      wordLengths := wordLengths + [2 + l];
      wordLenSum := wordLenSum + 2 + l;
    }
    SumBounds(wordLengths);
    var restLen := phraseLen - wordLenSum;
    if restLen >= 2 {
      RestAppended(wordLengths, restLen);
      wordLengths := wordLengths + [restLen];
    } else {
      RestAdded(wordLengths, minWords - 1, restLen);
      wordLengths := wordLengths[minWords - 1 := wordLengths[minWords - 1] + restLen];
    }
  }

  lemma Division(n: nat, q: nat)
    requires q == n / 7
    ensures 7 * q <= n < 7 * q + 7
  {
  }

  lemma EmptySum()
    ensures Sum([]) == 0
  {
  }

  lemma RestAppended(ws: seq<nat>, rest: nat)
    requires rest >= 2 && forall i :: 0 <= i < |ws| ==> ws[i] >= 2
    ensures Lengths(ws + [rest], Sum(ws) + rest)
  {
    hide Sum;
    SumAppend(ws, rest);
    PartsFit(ws + [rest]);
  }

  lemma RestAdded(ws: seq<nat>, n: nat, rest: nat)
    requires n < |ws| && forall i :: 0 <= i < |ws| ==> ws[i] >= 2
    ensures Lengths(ws[n := ws[n] + rest], Sum(ws) + rest)
  {
    hide Sum;
    ReplacedFits(ws, n, ws[n] + rest, Sum(ws) + rest);
  }

  lemma ReplacedFits(ws: seq<nat>, n: nat, x: nat, sum: nat)
    requires n < |ws| && x >= 2 && sum == Sum(ws) - ws[n] + x
    requires forall i :: 0 <= i < |ws| ==> ws[i] >= 2
    ensures Lengths(ws[n := x], sum)
  {
    hide Sum;
    SumUpdate(ws, n, x);
    PartsFit(ws[n := x]);
  }

  lemma PartsFit(ws: seq<nat>)
    ensures forall i :: 0 <= i < |ws| ==> ws[i] <= Sum(ws)
  {
    forall i | 0 <= i < |ws| ensures ws[i] <= Sum(ws) {
      UptoNext(ws, i);
      UptoGrows(ws, i + 1, |ws|);
      UptoAll(ws);
    }
  }

  predicate DiffersAtMostOnce(s: string, t: string) {
    |s| == |t| && forall i, j :: 0 <= i < j < |s| ==> s[i] == t[i] || s[j] == t[j]
  }

  const SUBSTITUTIONS: map<char, char> := map['b' := '6', 'g' := '9', 'i' := '!', 's' := '5', 't' := '+']

  function Upper(c: char): char {
    if 'a' <= c <= 'z' then c - 'a' + 'A' else c
  }

  // Case makes no difference to the pair under which successors are found, and upper case is undone
  // by lower case.
  lemma PairIgnoresCase(c: char, d: char)
    ensures Pair(Upper(c), Upper(d)) == Pair(c, d)
    ensures 'a' <= c <= 'z' ==> 'A' <= Upper(c) <= 'Z' && Lower(Upper(c)) == c
  {
  }

  // One character of word is replaced, inside it by what it looks like, otherwise by its upper case.
  predicate IsModified(word: string, r: string) {
    exists i :: 0 <= i < |word| && r == word[i :=
      if 0 < i < |word| - 1 && word[i] in SUBSTITUTIONS then SUBSTITUTIONS[word[i]] else Upper(word[i])]
  }

  method ModifyRandChar(word: string) returns (r: string)
    requires |word| > 0
    ensures DiffersAtMostOnce(word, r) && IsModified(word, r)
  {
    var i: nat :| i < |word|;
    r := word;
    if i > 0 && i < |word| - 1 {
      if word[i] in SUBSTITUTIONS {
        r := r[i := SUBSTITUTIONS[word[i]]];
        return;
      }
    }
    r := r[i := Upper(r[i])];
  }

  method RandomDigits(n: nat) returns (num: string)
    ensures |num| == n && Digits(num)
  {
    num := "";
    for i := 0 to n
      invariant |num| == i && Digits(num)
    {
      var d: nat :| d < 9;
      num := num + ["123456789"[d]];
    }
  }

  predicate Digits(s: string) {
    forall i :: 0 <= i < |s| ==> '1' <= s[i] <= '9'
  }

  function Min(x: nat, y: nat): nat { if x <= y then x else y }

  function Max(x: nat, y: nat): nat { if x >= y then x else y }

  lemma DigitsJoined(s: string, t: string)
    requires Digits(s) && Digits(t)
    ensures Digits(s + t)
  {
  }

  datatype PasswordResult = Password(text: string, words: seq<string>, phrase: string) | TooShort | GaveUp

  datatype Words = Some(words: seq<string>, phrase: string) | None

  // The loop that appends one word per length to the phrase; the phrase is the words joined.
  method JoinWords(t: Tables, wordLengths: seq<nat>, attempts: nat) returns (r: Words)
    requires WellFormed(t) && forall i :: 0 <= i < |wordLengths| ==> 2 <= wordLengths[i]
    ensures r.Some? ==> |r.words| == |wordLengths| && r.phrase == Concat(r.words) && |r.phrase| == Sum(wordLengths)
    ensures r.Some? ==> forall i :: 0 <= i < |r.words| ==> IsWord(t, r.words[i]) && |r.words[i]| == wordLengths[i]
    ensures Closed(t) && (forall i :: 0 <= i < |wordLengths| ==> attempts >= wordLengths[i]) ==> r.Some?
  {
    hide IsWord, WellFormed, Closed;
    var phrase: string := "";
    var words: seq<string> := [];
    for i := 0 to |wordLengths|
      invariant |words| == i && phrase == Concat(words) && |phrase| == Upto(wordLengths, i)
      invariant forall j :: 0 <= j < i ==> IsWord(t, words[j]) && |words[j]| == wordLengths[j]
    {
      var word := GenerateWord(t, wordLengths[i], attempts);
      if !word.Word? {
        return None;
      }
      UptoNext(wordLengths, i);
      assert (words + [word.text])[..i] == words;
      phrase := phrase + word.text;
      words := words + [word.text];
    }
    UptoAll(wordLengths);
    r := Some(words, phrase);
  }

  // Every password has exactly the requested length: four digits and words that share the rest,
  // of which one character is modified.
  method GenerateMemorablePassword(t: Tables, length: int, attempts: nat) returns (r: PasswordResult)
    requires WellFormed(t)
    ensures r.TooShort? <==> length < 7
    ensures Closed(t) && attempts >= length >= 7 ==> r.Password?
    ensures r.Password? ==>
      && |r.text| == length && |r.phrase| == length - 4 && |r.words| >= (length - 4) / 7
      && ((r.text[..length - 4] == r.phrase && Digits(r.text[length - 4..]))
          || (r.text[4..] == r.phrase && Digits(r.text[..4])))
      && DiffersAtMostOnce(Concat(r.words), r.phrase) && IsModified(Concat(r.words), r.phrase)
      && forall i :: 0 <= i < |r.words| ==> IsWord(t, r.words[i])
  {
    hide IsWord, WellFormed, Closed, Sum, Concat, Digits, IsModified;
    if length < 7 {
      return TooShort;
    }
    var numLen := Max(1, Min(3, length / 2));
    var phraseLen := length - numLen - 1;
    var num := RandomDigits(numLen);
    var separator := RandomDigits(1);
    DigitsJoined(num, separator);
    DigitsJoined(separator, num);
    var prefix, suffix := "", "";
    var side: bool := *;
    if side {
      prefix := num + separator;
    } else {
      suffix := separator + num;
    }
    var wordLengths := WordLengths(phraseLen);
    var shuffled := Shuffle(wordLengths);
    LengthsPermuted(wordLengths, shuffled, phraseLen);
    wordLengths := shuffled;
    var joined := JoinWords(t, wordLengths, attempts);
    if joined.None? {
      return GaveUp;
    }
    var phrase := ModifyRandChar(joined.phrase);
    var text := prefix + phrase + suffix;
    assert side ==> text[4..] == phrase && text[..4] == prefix;
    assert !side ==> text[..phraseLen] == phrase && text[phraseLen..] == suffix;
    r := Password(text, joined.words, phrase);
  }
}
