/**
 The word-count pipeline: a text is split into lines, lines into words, and words
 are counted, each stage receiving its input in whatever order it is delivered.
 Characters stand for octets.
*/
module WordCount {
  import opened Seqs

  /** White space in the C locale. */
  predicate IsSpace(c: char)
  {
    c == ' ' || '\t' <= c <= '\r'
  }

  function LowerChar(c: char): char
  {
    if 'A' <= c <= 'Z' then c - 'A' + 'a' else c
  }

  function Lower(word: string): string
  {
    Map(LowerChar, word)
  }

  /** Where the run of non-space characters starting at `at` ends. */
  function WordEnd(text: string, at: nat): (end: nat)
    requires at <= |text|
    ensures at <= end <= |text|
    decreases |text| - at
  {
    if at == |text| || IsSpace(text[at]) then at else WordEnd(text, at + 1)
  }

  /** Where the line that `at` is in ends. */
  function LineEnd(text: string, at: nat): (end: nat)
    requires at <= |text|
    ensures at <= end <= |text|
    decreases |text| - at
  {
    if at == |text| || text[at] == '\n' then at else LineEnd(text, at + 1)
  }

  /** What repeated extraction of words from a stream at position `at` yields. */
  function WordsFrom(text: string, at: nat): seq<string>
    requires at <= |text|
    decreases |text| - at
  {
    if at == |text| then []
    else if IsSpace(text[at]) then WordsFrom(text, at + 1)
    else
      var end := WordEnd(text, at + 1);
      [text[at..end]] + WordsFrom(text, end)
  }

  function Words(text: string): seq<string>
  {
    WordsFrom(text, 0)
  }

  /**
   What repeated `getline` at position `at` yields: a last line without a line feed
   counts, an empty rest does not.
  */
  function LinesFrom(text: string, at: nat): seq<string>
    requires at <= |text|
    decreases |text| - at
  {
    if at == |text| then []
    else
      var end := LineEnd(text, at);
      [text[at..end]] + LinesFrom(text, if end < |text| then end + 1 else end)
  }

  function Lines(text: string): seq<string>
  {
    LinesFrom(text, 0)
  }

  lemma {:induction false} WordEndIs(text: string, at: nat, end: nat)
    requires at <= end <= |text| && (forall i :: at <= i < end ==> !IsSpace(text[i])) && (end < |text| ==> IsSpace(text[end]))
    ensures WordEnd(text, at) == end
    decreases end - at
  {
    if at < end {
      WordEndIs(text, at + 1, end);
    }
  }

  lemma {:induction false} WordEndEnds(text: string, at: nat)
    requires at <= |text|
    ensures forall i :: at <= i < WordEnd(text, at) ==> !IsSpace(text[i])
    ensures WordEnd(text, at) < |text| ==> IsSpace(text[WordEnd(text, at)])
    decreases |text| - at
  {
    if at < |text| && !IsSpace(text[at]) {
      WordEndEnds(text, at + 1);
    }
  }

  lemma {:induction false} LineEndIs(text: string, at: nat, end: nat)
    requires at <= end <= |text| && (forall i :: at <= i < end ==> text[i] != '\n') && (end < |text| ==> text[end] == '\n')
    ensures LineEnd(text, at) == end
    decreases end - at
  {
    if at < end {
      LineEndIs(text, at + 1, end);
    }
  }

  lemma {:induction false} LineEndEnds(text: string, at: nat)
    requires at <= |text|
    ensures forall i :: at <= i < LineEnd(text, at) ==> text[i] != '\n'
    ensures LineEnd(text, at) < |text| ==> text[LineEnd(text, at)] == '\n'
    decreases |text| - at
  {
    if at < |text| && text[at] != '\n' {
      LineEndEnds(text, at + 1);
    }
  }

  // --- The stages, as they run ---

  /** One extraction from a stream at position `from`; `word` is empty at the end of the stream. */
  method ReadWord(text: string, from: nat) returns (word: string, to: nat)
    requires from <= |text|
    ensures from <= to <= |text|
    ensures WordsFrom(text, from) == if word == [] then [] else [word] + WordsFrom(text, to)
    ensures word != [] ==> from < to
  {
    to := from;
    while to < |text| && IsSpace(text[to])
      invariant from <= to <= |text|
      invariant WordsFrom(text, from) == WordsFrom(text, to)
    {
      to := to + 1;
    }
    var start := to;
    while to < |text| && !IsSpace(text[to])
      invariant start <= to <= |text|
      invariant forall i :: start <= i < to ==> !IsSpace(text[i])
    {
      to := to + 1;
    }
    word := text[start..to];
    if start < to {
      WordEndIs(text, start + 1, to);
    }
  }

  lemma NextLine(text: string, at: nat, end: nat, to: nat)
    requires at <= end <= |text| && at < |text| && LineEnd(text, at) == end && to == if end < |text| then end + 1 else end
    ensures LinesFrom(text, at) == [text[at..end]] + LinesFrom(text, to)
  {
  }

  /** One `getline` at position `from`, before the end of the text. */
  method ReadLine(text: string, from: nat) returns (line: string, to: nat)
    requires from < |text|
    ensures from < to <= |text|
    ensures LinesFrom(text, from) == [line] + LinesFrom(text, to)
  {
    to := from;
    while to < |text| && text[to] != '\n'
      invariant from <= to <= |text|
      invariant forall i :: from <= i < to ==> text[i] != '\n'
    {
      to := to + 1;
    }
    LineEndIs(text, from, to);
    ghost var end := to;
    line := text[from..to];
    if to < |text| {
      to := to + 1;
    }
    NextLine(text, from, end, to);
  }

  lemma Append<T>(done: seq<T>, x: T, rest: seq<T>)
    ensures done + ([x] + rest) == (done + [x]) + rest
  {
  }

  /** The head of the pipeline; `readable` tells whether the source file could be opened. */
  method Text2Lines(readable: bool, text: string) returns (pushed: seq<string>)
    ensures pushed == if readable then Lines(text) else []
  {
    pushed := [];
    if !readable {
      return;
    }
    var at := 0;
    while at < |text|
      invariant 0 <= at <= |text|
      invariant pushed + LinesFrom(text, at) == Lines(text)
    {
      var line, to := ReadLine(text, at);
      Append(pushed, line, LinesFrom(text, to));
      pushed, at := pushed + [line], to;
    }
  }

  /** What is still to come of a stream once `word` has been extracted. */
  function Remaining(word: string, text: string, at: nat): seq<string>
    requires at <= |text|
  {
    if word == [] then [] else [word] + WordsFrom(text, at)
  }

  class WordSplitter {
    var computeCounter: nat

    constructor ()
      ensures computeCounter == 0
    {
      computeCounter := 0;
    }

    method Lines2Words(line: string) returns (pushed: seq<string>)
      modifies this
      ensures pushed == Words(line)
      ensures computeCounter == old(computeCounter) + |Words(line)|
    {
      pushed := [];
      var word, at := ReadWord(line, 0);
      while word != []
        invariant at <= |line|
        invariant pushed + Remaining(word, line, at) == Words(line)
        invariant computeCounter == old(computeCounter) + |pushed|
        decreases |line| - at, word != []
      {
        Append(pushed, word, WordsFrom(line, at));
        pushed := pushed + [word];
        computeCounter := computeCounter + 1;
        word, at := ReadWord(line, at);
      }
    }
  }

  function Bump(counts: map<string, nat>, word: string): map<string, nat>
  {
    counts[word := (if word in counts then counts[word] else 0) + 1]
  }

  /** The counts after some more (lower-cased) words. */
  function CountFrom(counts: map<string, nat>, words: seq<string>): map<string, nat>
    decreases |words|
  {
    if words == [] then counts else CountFrom(Bump(counts, words[0]), words[1..])
  }

  function LoweredWords(payload: string): seq<string>
  {
    Map(Lower, Words(payload))
  }

  class WordCounter {
    var wordCountMap: map<string, nat>
    var computeCounter: nat

    constructor ()
      ensures wordCountMap == map[] && computeCounter == 0
    {
      wordCountMap, computeCounter := map[], 0;
    }

    method LowerInPlace(word: array<char>)
      modifies word
      ensures word[..] == Lower(old(word[..]))
      ensures forall k :: 0 <= k < word.Length ==>
        word[k] as int == old(word[k]) as int + if 'A' <= old(word[k]) <= 'Z' then 32 else 0
    {
      for i := 0 to word.Length
        invariant forall j :: 0 <= j < i ==> word[j] == LowerChar(old(word[j]))
        invariant forall j :: i <= j < word.Length ==> word[j] == old(word[j])
      {
        word[i] := LowerChar(word[i]);
      }
    }

    method CountWord(words: string)
      modifies this
      ensures wordCountMap == CountFrom(old(wordCountMap), LoweredWords(words))
      ensures forall word :: CountOf(wordCountMap, Lower(word)) == CountOf(old(wordCountMap), Lower(word)) + CaseBlind(Words(words), word)
      ensures computeCounter == old(computeCounter) + |Words(words)|
    {
      var word, at := ReadWord(words, 0);
      ghost var rest := Words(words);
      while word != []
        invariant at <= |words|
        invariant rest == Remaining(word, words, at)
        invariant CountFrom(wordCountMap, Map(Lower, rest)) == CountFrom(old(wordCountMap), LoweredWords(words))
        invariant computeCounter + |rest| == old(computeCounter) + |Words(words)|
        decreases |words| - at, word != []
      {
        var letters := new char[|word|](i requires 0 <= i < |word| => word[i]);
        assert letters[..] == word;
        LowerInPlace(letters);
        assert Map(Lower, rest)[1..] == Map(Lower, rest[1..]);
        wordCountMap := Bump(wordCountMap, letters[..]);
        computeCounter := computeCounter + 1;
        rest := rest[1..];
        word, at := ReadWord(words, at);
      }
      forall word
        ensures CountOf(wordCountMap, Lower(word)) == CountOf(old(wordCountMap), Lower(word)) + CaseBlind(Words(words), word)
      {
        CountedCaseBlind(old(wordCountMap), Words(words), word);
      }
    }
  }

  // --- What splitting means ---

  /** `rest` is what is left of the stream at position `from`. */
  ghost predicate IsRest(text: string, from: nat, rest: string)
  {
    |text| == from + |rest| && forall i :: 0 <= i < |rest| ==> rest[i] == text[from + i]
  }

  lemma {:induction false} WordEndOfRest(text: string, from: nat, rest: string, at: nat)
    requires IsRest(text, from, rest) && at <= |rest|
    ensures WordEnd(rest, at) + from == WordEnd(text, from + at)
    decreases |rest| - at
  {
    if at < |rest| {
      WordEndOfRest(text, from, rest, at + 1);
    }
  }

  lemma SliceOfSame(text: string, from: nat, rest: string, at: nat, end: nat)
    requires IsRest(text, from, rest) && at <= end <= |rest|
    ensures rest[at..end] == text[from + at..from + end]
  {
  }

  lemma NextWord(text: string, at: nat, word: string, end: nat, words: seq<string>)
    requires at < |text| && !IsSpace(text[at]) && WordEnd(text, at + 1) == end
    requires text[at..end] == word && WordsFrom(text, end) == words
    ensures WordsFrom(text, at) == [word] + words
  {
  }

  /** The next word of a rest, given that what follows it is the same. */
  lemma NextWordOfRest(text: string, from: nat, rest: string, at: nat, end: nat)
    requires IsRest(text, from, rest) && at < |rest| && !IsSpace(rest[at]) && end == WordEnd(rest, at + 1)
    requires WordsFrom(rest, end) == WordsFrom(text, from + end)
    ensures WordsFrom(rest, at) == WordsFrom(text, from + at)
  {
    WordEndOfRest(text, from, rest, at + 1);
    SliceOfSame(text, from, rest, at, end);
    NextWord(rest, at, rest[at..end], end, WordsFrom(rest, end));
    NextWord(text, from + at, rest[at..end], from + end, WordsFrom(rest, end));
  }

  /** Extraction depends only on the rest of the stream. */
  lemma {:induction false} WordsOfRest(text: string, from: nat, rest: string, at: nat)
    requires IsRest(text, from, rest) && at <= |rest|
    ensures WordsFrom(rest, at) == WordsFrom(text, from + at)
    decreases |rest| - at
  {
    if at < |rest| {
      if IsSpace(rest[at]) {
        WordsOfRest(text, from, rest, at + 1);
      } else {
        var end := WordEnd(rest, at + 1);
        WordsOfRest(text, from, rest, end);
        NextWordOfRest(text, from, rest, at, end);
      }
    }
  }

  /** A word stops at a white-space character wherever the stream is cut. */
  lemma {:induction false} WordEndUpTo(text: string, at: nat, cut: nat)
    requires at <= cut <= |text| && (cut < |text| ==> IsSpace(text[cut]))
    ensures WordEnd(text[..cut], at) == WordEnd(text, at) <= cut
    decreases cut - at
  {
    if at < cut {
      WordEndUpTo(text, at + 1, cut);
    }
  }

  lemma SliceOfFront(text: string, cut: nat, at: nat, end: nat)
    requires at <= end <= cut <= |text|
    ensures text[..cut][at..end] == text[at..end]
  {
  }

  lemma {:induction false} WordsUpTo(text: string, at: nat, cut: nat)
    requires at <= cut <= |text| && (cut < |text| ==> IsSpace(text[cut]))
    ensures WordsFrom(text, at) == WordsFrom(text[..cut], at) + if cut < |text| then WordsFrom(text, cut + 1) else []
    decreases cut - at
  {
    if at < cut {
      if IsSpace(text[at]) {
        WordsUpTo(text, at + 1, cut);
      } else {
        var front, end, rest := text[..cut], WordEnd(text, at + 1), if cut < |text| then WordsFrom(text, cut + 1) else [];
        WordEndUpTo(text, at + 1, cut);
        SliceOfFront(text, cut, at, end);
        WordsUpTo(text, end, cut);
        Associate([text[at..end]], WordsFrom(front, end), rest);
        NextWord(front, at, text[at..end], end, WordsFrom(front, end));
        NextWord(text, at, text[at..end], end, WordsFrom(text, end));
      }
    }
  }

  /** White space separates words: with `WordAlone` this determines `Words`. */
  lemma WordsAcrossSpace(a: string, c: char, b: string)
    requires IsSpace(c)
    ensures Words(a + [c] + b) == Words(a) + Words(b)
  {
    var text := a + [c] + b;
    WordsUpTo(text, 0, |a|);
    WordsOfRest(text, |a| + 1, b, 0);
    assert text[..|a|] == a;
  }

  lemma WordAlone(word: string)
    requires word != [] && forall c <- word :: !IsSpace(c)
    ensures Words(word) == [word]
  {
    assert word[0] in word;
    WordEndIs(word, 1, |word|);
    assert word[0..|word|] == word && WordsFrom(word, |word|) == [];
  }

  /** Blank, tabulator, line feed, vertical tabulator, form feed, carriage return. */
  const BLANKS: set<char> := {' ', '\t', '\n', '\U{0B}', '\U{0C}', '\r'}

  /**
   What splitting means, character by character: each of the six separates words, and
   a non-empty text that holds none of them is one word.
  */
  lemma WordsAreSeparatedByBlanks(a: string, c: char, b: string)
    ensures c in BLANKS ==> Words(a + [c] + b) == Words(a) + Words(b)
    ensures a != [] && (forall x <- a :: x !in BLANKS) ==> Words(a) == [a]
    ensures Words([]) == []
  {
    if c in BLANKS {
      WordsAcrossSpace(a, c, b);
    }
    if a != [] && forall x <- a :: x !in BLANKS {
      WordAlone(a);
    }
  }

  lemma {:induction false} WordsAreWords(text: string, at: nat, i: nat)
    requires at <= |text| && i < |WordsFrom(text, at)|
    ensures WordsFrom(text, at)[i] != [] && forall c <- WordsFrom(text, at)[i] :: !IsSpace(c)
    decreases |text| - at
  {
    if IsSpace(text[at]) {
      WordsAreWords(text, at + 1, i);
    } else if i > 0 {
      WordsAreWords(text, WordEnd(text, at + 1), i - 1);
    } else {
      WordEndEnds(text, at + 1);
    }
  }

  /** Splitting into lines first changes no word and no order. */
  lemma {:induction false} WordsOfLinesFrom(text: string, at: nat)
    requires at <= |text|
    ensures Flatten(Map(Words, LinesFrom(text, at))) == WordsFrom(text, at)
    decreases |text| - at
  {
    if at < |text| {
      var end := LineEnd(text, at);
      var to := if end < |text| then end + 1 else end;
      LineEndEnds(text, at);
      NextLine(text, at, end, to);
      FlattenMapCons(Words, text[at..end], LinesFrom(text, to));
      WordsOfLine(text, at, end, to);
      WordsOfLinesFrom(text, to);
    }
  }

  lemma WordsOfLine(text: string, at: nat, end: nat, to: nat)
    requires at <= end <= |text| && (end < |text| ==> IsSpace(text[end])) && to == if end < |text| then end + 1 else end
    ensures WordsFrom(text, at) == Words(text[at..end]) + WordsFrom(text, to)
  {
    WordsUpTo(text, at, end);
    WordsOfRest(text[..end], at, text[at..end], 0);
  }

  // --- What splitting into lines means ---

  predicate OneLine(line: string)
  {
    forall c <- line :: c != '\n'
  }

  /** The lines with a line feed after each. */
  function Joined(lines: seq<string>): string
  {
    if lines == [] then "" else lines[0] + ['\n'] + Joined(lines[1..])
  }

  /** What is missing at the end for every line to end in a line feed. */
  function LastFeed(text: string, at: nat): string
  {
    if at < |text| && text[|text| - 1] != '\n' then ['\n'] else []
  }

  lemma JoinedCons(line: string, lines: seq<string>)
    ensures Joined([line] + lines) == line + ['\n'] + Joined(lines)
  {
    assert ([line] + lines)[1..] == lines;
  }

  lemma JoinLine(text: string, at: nat, end: nat, to: nat)
    requires at <= end <= |text| && at < |text| && to == (if end < |text| then end + 1 else end)
    requires (forall i :: at <= i < end ==> text[i] != '\n') && (end < |text| ==> text[end] == '\n')
    ensures text[at..end] + ['\n'] + (text[to..] + LastFeed(text, to)) == text[at..] + LastFeed(text, at)
  {
    if end < |text| {
      assert text[at..] == text[at..end] + [text[end]] + text[to..];
    }
  }

  lemma {:induction false} LinesFromJoin(text: string, at: nat)
    requires at <= |text|
    ensures Joined(LinesFrom(text, at)) == text[at..] + LastFeed(text, at)
    ensures forall line <- LinesFrom(text, at) :: OneLine(line)
    decreases |text| - at
  {
    if at < |text| {
      var end := LineEnd(text, at);
      var to := if end < |text| then end + 1 else end;
      LineEndEnds(text, at);
      LinesFromJoin(text, to);
      NextLine(text, at, end, to);
      JoinedCons(text[at..end], LinesFrom(text, to));
      JoinLine(text, at, end, to);
    }
  }

  /** No line holds a line feed, and the lines put together are the text, up to one line feed at its end. */
  lemma LinesJoin(text: string)
    ensures forall line <- Lines(text) :: OneLine(line)
    ensures Joined(Lines(text)) == text + if text != [] && text[|text| - 1] != '\n' then ['\n'] else []
  {
    LinesFromJoin(text, 0);
    assert text[0..] == text;
  }

  lemma {:induction false} LineEndOfRest(text: string, from: nat, rest: string, at: nat)
    requires IsRest(text, from, rest) && at <= |rest|
    ensures LineEnd(rest, at) + from == LineEnd(text, from + at)
    decreases |rest| - at
  {
    if at < |rest| {
      LineEndOfRest(text, from, rest, at + 1);
    }
  }

  lemma NextLineOfRest(text: string, from: nat, rest: string, at: nat, end: nat, to: nat)
    requires IsRest(text, from, rest) && at < |rest| && end == LineEnd(rest, at) && to == if end < |rest| then end + 1 else end
    requires LinesFrom(rest, to) == LinesFrom(text, from + to)
    ensures LinesFrom(rest, at) == LinesFrom(text, from + at)
  {
    LineEndOfRest(text, from, rest, at);
    SliceOfSame(text, from, rest, at, end);
    NextLine(rest, at, end, to);
    NextLine(text, from + at, from + end, from + to);
  }

  lemma {:induction false} LinesOfRest(text: string, from: nat, rest: string, at: nat)
    requires IsRest(text, from, rest) && at <= |rest|
    ensures LinesFrom(rest, at) == LinesFrom(text, from + at)
    decreases |rest| - at
  {
    if at < |rest| {
      var end := LineEnd(rest, at);
      var to := if end < |rest| then end + 1 else end;
      LinesOfRest(text, from, rest, to);
      NextLineOfRest(text, from, rest, at, end, to);
    }
  }

  lemma LinesCons(line: string, rest: string)
    requires OneLine(line)
    ensures Lines(line + ['\n'] + rest) == [line] + Lines(rest)
  {
    var text := line + ['\n'] + rest;
    forall i | 0 <= i < |line| ensures text[i] != '\n' {
      assert text[i] == line[i] && line[i] in line;
    }
    LineEndIs(text, 0, |line|);
    NextLine(text, 0, |line|, |line| + 1);
    LinesOfRest(text, |line| + 1, rest, 0);
    assert text[0..|line|] == line;
  }

  /** So splitting is the only inverse of putting lines together. */
  lemma {:induction false} JoinedSplit(lines: seq<string>)
    requires forall line <- lines :: OneLine(line)
    ensures Lines(Joined(lines)) == lines
  {
    if lines != [] {
      var line, rest := lines[0], lines[1..];
      assert line in lines && forall other <- rest :: other in lines;
      JoinedSplit(rest);
      LinesCons(line, Joined(rest));
    }
  }

  // --- What counting means ---

  /** Of the 26 letters A (65) to Z, each has its small one, from a (97) on; all other characters stay. */
  lemma LowerCharIs(k: nat, c: char)
    ensures k < 26 ==> LowerChar((65 + k) as char) == (97 + k) as char
    ensures c as int < 65 || c as int >= 65 + 26 ==> LowerChar(c) == c
  {
  }

  predicate IsCapital(c: char)
  {
    65 <= c as int < 65 + 26
  }

  lemma NoCapitalLeft(c: char)
    ensures !IsCapital(LowerChar(c)) && (!IsCapital(c) ==> LowerChar(c) == c)
  {
    LowerCharIs(if IsCapital(c) then c as int - 65 else 0, c);
    assert IsCapital(c) ==> c == (65 + (c as int - 65)) as char;
  }

  /** Of a word, each character is lower-cased by itself, and no capital letter remains. */
  lemma LowerIs(word: string)
    ensures |Lower(word)| == |word| && forall i :: 0 <= i < |word| ==> Lower(word)[i] == LowerChar(word[i])
    ensures forall c <- Lower(word) :: !IsCapital(c)
    ensures (forall c <- word :: !IsCapital(c)) ==> Lower(word) == word
  {
    forall c | c in Lower(word) ensures !IsCapital(c) {
      var i :| 0 <= i < |word| && Lower(word)[i] == c;
      NoCapitalLeft(word[i]);
    }
    if forall c <- word :: !IsCapital(c) {
      forall i | 0 <= i < |word| ensures Lower(word)[i] == word[i] {
        assert word[i] in word;
        NoCapitalLeft(word[i]);
      }
    }
  }

  /** The same character, or a capital letter and its small one. */
  predicate SameLetter(c: char, d: char)
  {
    c == d || (IsCapital(c) && d as int == c as int + 32) || (IsCapital(d) && c as int == d as int + 32)
  }

  /** The words differ in case only. */
  predicate SameButForCase(a: string, b: string)
  {
    |a| == |b| && forall i :: 0 <= i < |a| ==> SameLetter(a[i], b[i])
  }

  lemma LetterCase(c: char, d: char)
    ensures SameLetter(c, d) <==> LowerChar(c) == LowerChar(d)
  {
  }

  /** Two words fall under one key exactly when they differ in case only. */
  lemma OneKeyForEachCase(a: string, b: string)
    ensures Lower(a) == Lower(b) <==> SameButForCase(a, b)
  {
    if |a| == |b| {
      forall i | 0 <= i < |a| ensures SameLetter(a[i], b[i]) <==> Lower(a)[i] == Lower(b)[i] {
        LetterCase(a[i], b[i]);
      }
    }
  }

  /** How many of the words differ from this one in case only. */
  function CaseBlind(words: seq<string>, word: string): nat
  {
    if words == [] then 0 else (if SameButForCase(words[0], word) then 1 else 0) + CaseBlind(words[1..], word)
  }

  lemma {:induction false} LoweredCaseBlind(words: seq<string>, word: string)
    ensures multiset(Map(Lower, words))[Lower(word)] == CaseBlind(words, word)
  {
    if words != [] {
      assert words == [words[0]] + words[1..];
      MapCons(Lower, words[0], words[1..]);
      OneKeyForEachCase(words[0], word);
      LoweredCaseBlind(words[1..], word);
    }
  }

  /**
   So words are counted whatever their case: under a word's key, the count grows by
   the number of words that differ from it in case only.
  */
  lemma CountedCaseBlind(counts: map<string, nat>, words: seq<string>, word: string)
    ensures CountOf(CountFrom(counts, Map(Lower, words)), Lower(word)) == CountOf(counts, Lower(word)) + CaseBlind(words, word)
  {
    CountIsMultiplicity(counts, Map(Lower, words), Lower(word));
    LoweredCaseBlind(words, word);
    assert Lower(word) in Map(Lower, words) <==> Lower(word) in multiset(Map(Lower, words));
  }

  lemma {:induction false} CountIsMultiplicity(counts: map<string, nat>, words: seq<string>, word: string)
    ensures var before := if word in counts then counts[word] else 0;
      && (word in CountFrom(counts, words) <==> word in counts || word in words)
      && (word in CountFrom(counts, words) ==> CountFrom(counts, words)[word] == before + multiset(words)[word])
    decreases |words|
  {
    if words != [] {
      assert words == [words[0]] + words[1..];
      CountIsMultiplicity(Bump(counts, words[0]), words[1..], word);
    }
  }

  /** Counting does not depend on the order. */
  lemma CountPermutation(counts: map<string, nat>, a: seq<string>, b: seq<string>)
    requires multiset(a) == multiset(b)
    ensures CountFrom(counts, a) == CountFrom(counts, b)
  {
    forall word: string
      ensures word in CountFrom(counts, a) <==> word in CountFrom(counts, b)
      ensures word in CountFrom(counts, a) ==> CountFrom(counts, a)[word] == CountFrom(counts, b)[word]
    {
      CountIsMultiplicity(counts, a, word);
      CountIsMultiplicity(counts, b, word);
      assert word in a <==> word in multiset(a);
      assert word in b <==> word in multiset(b);
    }
  }

  /** The counts after one list of words after another. */
  function CountLists(counts: map<string, nat>, lists: seq<seq<string>>): map<string, nat>
    decreases |lists|
  {
    if lists == [] then counts else CountLists(CountFrom(counts, lists[0]), lists[1..])
  }

  /** The counter after the payloads arrived one by one; each is one call of `WordCounter.CountWord`. */
  function CountPayloads(counts: map<string, nat>, payloads: seq<string>): map<string, nat>
  {
    CountLists(counts, Map(LoweredWords, payloads))
  }

  function CountOf(counts: map<string, nat>, word: string): nat
  {
    if word in counts then counts[word] else 0
  }

  lemma {:induction false} OneMoreList(counts: map<string, nat>, lists: seq<seq<string>>, list: seq<string>)
    ensures CountLists(counts, lists + [list]) == CountFrom(CountLists(counts, lists), list)
    decreases |lists|
  {
    if lists == [] {
      assert [list][1..] == [];
      assert lists + [list] == [list];
    } else {
      assert (lists + [list])[1..] == lists[1..] + [list];
      OneMoreList(CountFrom(counts, lists[0]), lists[1..], list);
    }
  }

  /** One more payload is one more call of `WordCounter.CountWord`. */
  lemma OneMoreCall(counts: map<string, nat>, payloads: seq<string>, payload: string)
    ensures CountPayloads(counts, payloads + [payload]) == CountFrom(CountPayloads(counts, payloads), LoweredWords(payload))
  {
    assert Map(LoweredWords, payloads + [payload]) == Map(LoweredWords, payloads) + [LoweredWords(payload)];
    OneMoreList(counts, Map(LoweredWords, payloads), LoweredWords(payload));
  }

  /** How often the lower-cased word occurs in the payloads. */
  function Occurrences(payloads: seq<string>, word: string): nat
  {
    multiset(Flatten(Map(LoweredWords, payloads)))[word]
  }

  lemma OneMorePayload(payloads: seq<string>, payload: string, word: string)
    ensures Occurrences(payloads + [payload], word) == Occurrences(payloads, word) + multiset(LoweredWords(payload))[word]
  {
    FlattenMapSnoc(LoweredWords, payloads, payload);
  }

  lemma CountOfPayloads(payloads: seq<string>, word: string)
    ensures CountOf(CountPayloads(map[], payloads), word) == Occurrences(payloads, word)
  {
    var words := Flatten(Map(LoweredWords, payloads));
    CountListsFlat(map[], Map(LoweredWords, payloads));
    CountIsMultiplicity(map[], words, word);
    assert word in words <==> word in multiset(words);
  }

  lemma {:induction false} CountFromConcat(counts: map<string, nat>, a: seq<string>, b: seq<string>)
    ensures CountFrom(counts, a + b) == CountFrom(CountFrom(counts, a), b)
    decreases |a|
  {
    if a == [] {
      assert a + b == b;
    } else {
      assert (a + b)[1..] == a[1..] + b;
      CountFromConcat(Bump(counts, a[0]), a[1..], b);
    }
  }

  lemma {:induction false} CountListsFlat(counts: map<string, nat>, lists: seq<seq<string>>)
    ensures CountLists(counts, lists) == CountFrom(counts, Flatten(lists))
    decreases |lists|
  {
    if lists != [] {
      CountFromConcat(counts, lists[0], Flatten(lists[1..]));
      CountListsFlat(CountFrom(counts, lists[0]), lists[1..]);
    }
  }

  lemma LoweredWordAlone(word: string)
    requires word != [] && forall c <- word :: !IsSpace(c)
    ensures LoweredWords(word) == [Lower(word)]
  {
    WordAlone(word);
    MapCons(Lower, word, []);
  }

  lemma {:induction false} LoweredWordsOfWords(words: seq<string>)
    requires forall i :: 0 <= i < |words| ==> LoweredWords(words[i]) == [Lower(words[i])]
    ensures Flatten(Map(LoweredWords, words)) == Map(Lower, words)
  {
    if words != [] {
      var word, rest := words[0], words[1..];
      assert words == [word] + rest;
      FlattenMapCons(LoweredWords, word, rest);
      MapCons(Lower, word, rest);
      LoweredWordsOfWords(rest);
    }
  }

  /** Splitting and lower-casing it yields just the word itself in lower case. */
  predicate CountsAsOne(word: string)
  {
    LoweredWords(word) == [Lower(word)]
  }

  lemma {:induction false} WordsOfAllLines(lines: seq<string>)
    ensures forall word <- Flatten(Map(Words, lines)) :: CountsAsOne(word)
  {
    if lines != [] {
      var line, rest := lines[0], lines[1..];
      assert lines == [line] + rest;
      FlattenMapCons(Words, line, rest);
      WordsOfAllLines(rest);
      forall word | word in Words(line) ensures CountsAsOne(word) {
        var i :| 0 <= i < |Words(line)| && Words(line)[i] == word;
        WordsAreWords(line, 0, i);
        LoweredWordAlone(word);
      }
    }
  }

  /** Payloads that are single words are counted as themselves, in whatever order. */
  lemma CountsOfWords(words: seq<string>, all: seq<string>)
    requires multiset(words) == multiset(all) && forall word <- all :: CountsAsOne(word)
    ensures CountPayloads(map[], words) == CountFrom(map[], Map(Lower, all))
  {
    MapPermutation(LoweredWords, words, all);
    FlattenPermutation(Map(LoweredWords, words), Map(LoweredWords, all));
    forall i | 0 <= i < |all| ensures LoweredWords(all[i]) == [Lower(all[i])] {
      assert CountsAsOne(all[i]);
    }
    LoweredWordsOfWords(all);
    CountListsFlat(map[], Map(LoweredWords, words));
    CountPermutation(map[], Flatten(Map(LoweredWords, words)), Map(Lower, all));
  }

  /** The words of lines in any order are the words of the text. */
  lemma WordsOfLines(text: string, lines: seq<string>)
    requires multiset(lines) == multiset(Lines(text))
    ensures multiset(Flatten(Map(Words, lines))) == multiset(Words(text))
  {
    MapPermutation(Words, lines, Lines(text));
    FlattenPermutation(Map(Words, lines), Map(Words, Lines(text)));
    WordsOfLinesFrom(text, 0);
  }

  /**
   The meaning of the pipeline: whatever the order in which the lines, and then
   the words of all lines, are delivered, the final counts are those of the
   lower-cased words of the whole text.
  */
  lemma EndToEnd(text: string, lines: seq<string>, words: seq<string>)
    requires multiset(lines) == multiset(Lines(text))
    requires multiset(words) == multiset(Flatten(Map(Words, lines)))
    ensures CountPayloads(map[], words) == CountFrom(map[], Map(Lower, Words(text)))
    ensures forall word :: word in CountPayloads(map[], words) <==> word in Map(Lower, Words(text))
    ensures forall word :: word in CountPayloads(map[], words) ==>
      CountPayloads(map[], words)[word] == multiset(Map(Lower, Words(text)))[word]
  {
    var lowered := Map(Lower, Words(text));
    WordsOfAllLines(lines);
    CountsOfWords(words, Flatten(Map(Words, lines)));
    WordsOfLines(text, lines);
    MapPermutation(Lower, Flatten(Map(Words, lines)), Words(text));
    CountPermutation(map[], Map(Lower, Flatten(Map(Words, lines))), lowered);
    forall word ensures word in CountFrom(map[], lowered) <==> word in lowered
      ensures word in CountFrom(map[], lowered) ==> CountFrom(map[], lowered)[word] == multiset(lowered)[word]
    {
      CountIsMultiplicity(map[], lowered, word);
    }
  }

  lemma MoreWordsCountMore(words: seq<string>, more: seq<string>)
    ensures CountFrom(map[], words + more) == CountFrom(map[], words) <==> more == []
  {
    if more == [] {
      assert words + more == words;
    } else {
      var word := more[0];
      CountIsMultiplicity(map[], words, word);
      CountIsMultiplicity(map[], words + more, word);
      assert word in words + more && word in multiset(more);
      assert word in words <==> word in multiset(words);
    }
  }

  /**
   When some lines are lost on the way, the counts are those of the whole text
   exactly when no lost line holds a word.
  */
  lemma EndToEndWithLoss(text: string, lines: seq<string>, lost: seq<string>, words: seq<string>)
    requires multiset(lines + lost) == multiset(Lines(text))
    requires multiset(words) == multiset(Flatten(Map(Words, lines)))
    ensures CountPayloads(map[], words) == CountFrom(map[], Map(Lower, Words(text)))
      <==> forall line <- lost :: Words(line) == []
  {
    var got, missed := Flatten(Map(Words, lines)), Flatten(Map(Words, lost));
    WordsOfAllLines(lines);
    CountsOfWords(words, got);
    WordsOfLines(text, lines + lost);
    MapConcat(Words, lines, lost);
    FlattenConcat(Map(Words, lines), Map(Words, lost));
    MapConcat(Lower, got, missed);
    MapPermutation(Lower, got + missed, Words(text));
    CountPermutation(map[], Map(Lower, got + missed), Map(Lower, Words(text)));
    MoreWordsCountMore(Map(Lower, got), Map(Lower, missed));
    NothingIn(lost);
  }

  lemma {:induction false} NothingIn(lines: seq<string>)
    ensures Flatten(Map(Words, lines)) == [] <==> forall line <- lines :: Words(line) == []
  {
    if lines != [] {
      var line, rest := lines[0], lines[1..];
      assert lines == [line] + rest;
      FlattenMapCons(Words, line, rest);
      NothingIn(rest);
    }
  }
}
