/** Word counting for notes: `countWords`, the truncation pass of
    `updateWordCount`, and the Enter-key guard of the note editor. */
module Words {

  /** A note may hold at most this many words. */
  const MaxWords: nat := 15

  /** The characters of the JavaScript `\s` class, which are also the ones
      `String.prototype.trim` removes: the WhiteSpace code points (tab, vertical
      tab, form feed, no-break space, byte-order mark and the Unicode Zs
      category) and the LineTerminator code points. */
  predicate IsSpace(c: char) {
    || c == '\t' || c == '\n' || c == '\U{B}' || c == '\U{C}' || c == '\r'
    || c == ' ' || c == '\U{A0}' || c == '\U{1680}'
    || ('\U{2000}' <= c <= '\U{200A}')
    || c == '\U{2028}' || c == '\U{2029}' || c == '\U{202F}' || c == '\U{205F}'
    || c == '\U{3000}' || c == '\U{FEFF}'
  }

  predicate NoSpace(s: string) {
    forall i :: 0 <= i < |s| ==> !IsSpace(s[i])
  }

  predicate AllSpace(s: string) {
    forall i :: 0 <= i < |s| ==> IsSpace(s[i])
  }

  /** A list of words: non-empty strings without whitespace. */
  predicate IsWordList(ws: seq<string>) {
    forall i :: 0 <= i < |ws| ==> ws[i] != [] && NoSpace(ws[i])
  }

  function Min(a: int, b: int): int {
    if a <= b then a else b
  }

  // ---------------------------------------------------------------------
  // trim, split and filter

  /** The length of the run of whitespace that `s` starts with. */
  function SpacePrefix(s: string): (k: nat)
    ensures k <= |s|
    ensures forall i :: 0 <= i < k ==> IsSpace(s[i])
    ensures k < |s| ==> !IsSpace(s[k])
  {
    if |s| > 0 && IsSpace(s[0]) then 1 + SpacePrefix(s[1..]) else 0
  }

  /** The length of the run of whitespace that `s` ends with. */
  function SpaceSuffix(s: string): (k: nat)
    ensures k <= |s|
    ensures forall i :: |s| - k <= i < |s| ==> IsSpace(s[i])
    ensures k < |s| ==> !IsSpace(s[|s| - 1 - k])
  {
    if |s| > 0 && IsSpace(s[|s| - 1]) then 1 + SpaceSuffix(s[..|s| - 1]) else 0
  }

  /** The length of the run of non-whitespace characters that `s` starts with. */
  function WordPrefix(s: string): (k: nat)
    ensures k <= |s|
    ensures forall i :: 0 <= i < k ==> !IsSpace(s[i])
    ensures k < |s| ==> IsSpace(s[k])
  {
    if |s| > 0 && !IsSpace(s[0]) then 1 + WordPrefix(s[1..]) else 0
  }

  /** Drops the leading run of whitespace. */
  function TrimStart(s: string): string {
    s[SpacePrefix(s)..]
  }

  /** Drops the trailing run of whitespace. */
  function TrimEnd(s: string): string {
    s[..|s| - SpaceSuffix(s)]
  }

  /** `s.trim()` */
  function Trim(s: string): string {
    TrimEnd(TrimStart(s))
  }

  /** The longest prefix of `s` without whitespace. */
  function LeadingWord(s: string): string {
    s[..WordPrefix(s)]
  }

  /** `s.split(/\s+/)`: the pieces between maximal runs of whitespace. A
      leading or trailing run yields an empty first or last piece, and the
      empty string splits into a single empty piece. */
  function Split(s: string): (pieces: seq<string>)
    ensures |pieces| >= 1
    ensures forall i :: 0 <= i < |pieces| ==> NoSpace(pieces[i])
    decreases |s|
  {
    var w := LeadingWord(s);
    if |w| == |s| then [w] else [w] + Split(TrimStart(s[|w|..]))
  }

  /** `pieces.filter(word => word.length > 0)` */
  function NonEmpty(pieces: seq<string>): (r: seq<string>)
    ensures forall i :: 0 <= i < |r| ==> r[i] != []
  {
    if |pieces| == 0 then []
    else (if pieces[0] == [] then [] else [pieces[0]]) + NonEmpty(pieces[1..])
  }

  /** The words `countWords` counts. */
  function CountedWords(text: string): seq<string> {
    NonEmpty(Split(Trim(text)))
  }

  /** `countWords(text)` */
  function CountWords(text: string): nat {
    |CountedWords(text)|
  }

  /** `words.join(' ')` */
  function Join(ws: seq<string>): string {
    if |ws| == 0 then "" else if |ws| == 1 then ws[0] else ws[0] + " " + Join(ws[1..])
  }

  // ---------------------------------------------------------------------
  // An independent count: the number of maximal non-whitespace runs

  /** Position `i` holds the first character of a maximal run of
      non-whitespace characters. */
  predicate StartsRun(s: string, i: nat)
    requires i < |s|
  {
    !IsSpace(s[i]) && (i == 0 || IsSpace(s[i - 1]))
  }

  /** The number of positions of `s` that start a run. */
  function NumRuns(s: string): nat {
    if |s| == 0 then 0
    else NumRuns(s[..|s| - 1]) + (if StartsRun(s, |s| - 1) then 1 else 0)
  }

  /** Two runs merge into one exactly when `a` ends and `b` starts inside a word. */
  lemma {:induction false} RunsOfConcat(a: string, b: string)
    ensures NumRuns(a + b) == NumRuns(a) + NumRuns(b)
      - (if |a| > 0 && |b| > 0 && !IsSpace(a[|a| - 1]) && !IsSpace(b[0]) then 1 else 0)
    decreases |b|
  {
    if |b| == 0 {
      assert a + b == a;
    } else {
      var b' := b[..|b| - 1];
      assert (a + b)[..|a + b| - 1] == a + b';
      RunsOfConcat(a, b');
    }
  }

  lemma {:induction false} RunsOfSpaces(s: string)
    requires AllSpace(s)
    ensures NumRuns(s) == 0
  {
    if |s| > 0 {
      RunsOfSpaces(s[..|s| - 1]);
    }
  }

  lemma {:induction false} RunsOfWord(w: string)
    requires w != [] && NoSpace(w)
    ensures NumRuns(w) == 1
  {
    if |w| > 1 {
      RunsOfWord(w[..|w| - 1]);
    }
  }

  /** A text has no runs exactly when it is all whitespace. */
  lemma {:induction false} RunsZeroIffAllSpace(s: string)
    ensures NumRuns(s) == 0 <==> AllSpace(s)
  {
    if |s| > 0 {
      var p := s[..|s| - 1];
      RunsZeroIffAllSpace(p);
      if AllSpace(s) {
        assert AllSpace(p);
      } else if AllSpace(p) {
        assert !IsSpace(s[|s| - 1]);
        assert StartsRun(s, |s| - 1);
      } else {
        assert NumRuns(p) > 0;
      }
    }
  }

  lemma NonEmptyOfPair(w: string, rest: seq<string>)
    ensures NonEmpty([w] + rest) == (if w == [] then [] else [w]) + NonEmpty(rest)
  {
    assert ([w] + rest)[1..] == rest;
  }

  /** A word, a non-empty gap of whitespace and a tail: the runs of the word
      and of the tail never merge. */
  lemma RunsAroundGap(w: string, sp: string, t: string)
    requires NoSpace(w) && sp != [] && AllSpace(sp)
    ensures NumRuns(w + sp + t) == NumRuns(w) + NumRuns(t)
  {
    RunsOfSpaces(sp);
    RunsOfConcat(w, sp);
    RunsOfConcat(w + sp, t);
  }

  /** The whitespace between the leading word of `s` and the rest. */
  lemma SplitGap(s: string) returns (sp: string)
    requires |LeadingWord(s)| < |s|
    ensures var w := LeadingWord(s);
      s == w + sp + TrimStart(s[|w|..]) && sp != [] && AllSpace(sp)
  {
    var w := LeadingWord(s);
    var rest := s[|w|..];
    var t := TrimStart(rest);
    sp := rest[..|rest| - |t|];
    assert s == w + sp + t by {
      assert rest == sp + t;
      assert s == w + rest;
    }
    assert sp != [] && AllSpace(sp) by {
      assert IsSpace(rest[0]);
    }
  }

  /** One step of the split: `s` is its leading word, a gap, and the text the
      split continues on. */
  lemma SplitStep(s: string)
    requires |LeadingWord(s)| < |s|
    ensures var w := LeadingWord(s);
      NumRuns(s) == NumRuns(w) + NumRuns(TrimStart(s[|w|..]))
  {
    var w := LeadingWord(s);
    var t := TrimStart(s[|w|..]);
    var sp := SplitGap(s);
    RunsAroundGap(w, sp, t);
  }

  /** The non-empty pieces of a split are exactly the runs. */
  lemma {:induction false} SplitCountsRuns(s: string)
    ensures |NonEmpty(Split(s))| == NumRuns(s)
    decreases |s|
  {
    var w := LeadingWord(s);
    if |w| == |s| {
      assert w == s;
      if w != [] {
        RunsOfWord(w);
      }
    } else {
      var t := TrimStart(s[|w|..]);
      assert Split(s) == [w] + Split(t);
      SplitCountsRuns(t);
      NonEmptyOfPair(w, Split(t));
      SplitStep(s);
      if w != [] {
        RunsOfWord(w);
      }
    }
  }

  lemma TrimStartKeepsRuns(s: string)
    ensures NumRuns(TrimStart(s)) == NumRuns(s)
  {
    var t := TrimStart(s);
    var a := s[..|s| - |t|];
    assert s == a + t;
    assert AllSpace(a);
    RunsOfSpaces(a);
    RunsOfConcat(a, t);
  }

  lemma TrimEndKeepsRuns(s: string)
    ensures NumRuns(TrimEnd(s)) == NumRuns(s)
  {
    var r := TrimEnd(s);
    var b := s[|r|..];
    assert s == r + b;
    assert AllSpace(b);
    RunsOfSpaces(b);
    RunsOfConcat(r, b);
  }

  /** Trimming never changes the number of runs. */
  lemma TrimKeepsRuns(s: string)
    ensures NumRuns(Trim(s)) == NumRuns(s)
  {
    TrimStartKeepsRuns(s);
    TrimEndKeepsRuns(TrimStart(s));
  }

  /** `countWords` counts the maximal runs of non-whitespace characters. */
  lemma CountWordsIsRuns(text: string)
    ensures CountWords(text) == NumRuns(text)
  {
    SplitCountsRuns(Trim(text));
    TrimKeepsRuns(text);
  }

  /** `countWords` is 0 exactly for empty and whitespace-only text. */
  lemma CountWordsZeroIffBlank(text: string)
    ensures CountWords(text) == 0 <==> AllSpace(text)
  {
    CountWordsIsRuns(text);
    RunsZeroIffAllSpace(text);
  }

  /** Trimming first does not change the count (the save-time guard counts
      the trimmed text). */
  lemma CountWordsOfTrim(text: string)
    ensures CountWords(Trim(text)) == CountWords(text)
  {
    CountWordsIsRuns(text);
    CountWordsIsRuns(Trim(text));
    TrimKeepsRuns(text);
  }

  // ---------------------------------------------------------------------
  // Splitting trimmed text and joining words

  lemma TrimNoop(s: string)
    requires s == [] || (!IsSpace(s[0]) && !IsSpace(s[|s| - 1]))
    ensures Trim(s) == s
  {
  }

  /** Trimming leaves nothing exactly of empty and whitespace-only text. */
  lemma TrimEmptyIffBlank(s: string)
    ensures Trim(s) == [] <==> AllSpace(s)
  {
  }

  /** Trimming twice is trimming once. */
  lemma TrimIdempotent(s: string)
    ensures Trim(Trim(s)) == Trim(s)
  {
    TrimNoop(Trim(s));
  }

  /** Splitting text without outer whitespace yields no empty piece. */
  lemma {:induction false} SplitTrimmedIsWordList(s: string)
    requires s != [] && !IsSpace(s[0]) && !IsSpace(s[|s| - 1])
    ensures IsWordList(Split(s))
    decreases |s|
  {
    var w := LeadingWord(s);
    if |w| < |s| {
      var rest := s[|w|..];
      var t := TrimStart(rest);
      assert t[|t| - 1] == s[|s| - 1];
      SplitTrimmedIsWordList(t);
    }
  }

  lemma {:induction false} NonEmptyOfWordList(ws: seq<string>)
    requires IsWordList(ws)
    ensures NonEmpty(ws) == ws
  {
    if |ws| > 0 {
      NonEmptyOfWordList(ws[1..]);
    }
  }

  lemma {:induction false} LeadingWordOfConcat(w: string, rest: string)
    requires NoSpace(w) && (rest == [] || IsSpace(rest[0]))
    ensures LeadingWord(w + rest) == w
  {
    if |w| > 0 {
      assert (w + rest)[1..] == w[1..] + rest;
      LeadingWordOfConcat(w[1..], rest);
    }
  }

  /** A joined word list starts with the first word's first character and
      ends with the last word's last character. */
  lemma {:induction false} JoinEnds(ws: seq<string>)
    requires IsWordList(ws) && |ws| > 0
    ensures var j := Join(ws); |j| > 0 && j[0] == ws[0][0] && j[|j| - 1] == ws[|ws| - 1][|ws[|ws| - 1]| - 1]
  {
    assert ws[0] != [];
    if |ws| > 1 {
      var rest := ws[1..];
      JoinEnds(rest);
      var j, t := Join(ws), Join(rest);
      assert j == ws[0] + " " + t;
      assert rest[|rest| - 1] == ws[|ws| - 1];
      assert j[|j| - 1] == t[|t| - 1];
    }
  }

  /** A single word splits into itself. */
  lemma SplitWord(w: string)
    requires NoSpace(w)
    ensures Split(w) == [w]
  {
    LeadingWordOfConcat(w, []);
    assert w + [] == w;
  }

  /** Splitting a word, a space and text that starts with a word continues
      on that text. */
  lemma SplitAfterSpace(w: string, j: string)
    requires w != [] && NoSpace(w) && j != [] && !IsSpace(j[0])
    ensures Split(w + " " + j) == [w] + Split(j)
  {
    var s := w + " " + j;
    LeadingWordOfConcat(w, " " + j);
    assert s == w + (" " + j);
    assert s[|w|..] == " " + j;
    assert (" " + j)[1..] == j;
    assert TrimStart(" " + j) == TrimStart(j) == j;
  }

  /** Splitting a joined word list gives the list back. */
  lemma {:induction false} SplitJoin(ws: seq<string>)
    requires IsWordList(ws) && |ws| > 0
    ensures Split(Join(ws)) == ws
  {
    if |ws| == 1 {
      assert Join(ws) == ws[0];
      SplitWord(ws[0]);
    } else {
      SplitJoin(ws[1..]);
      SplitJoinStep(ws);
    }
  }

  lemma SplitJoinStep(ws: seq<string>)
    requires IsWordList(ws) && |ws| > 1
    requires Split(Join(ws[1..])) == ws[1..]
    ensures Split(Join(ws)) == ws
  {
    var rest := ws[1..];
    var j := Join(rest);
    JoinEnds(rest);
    assert !IsSpace(j[0]) by {
      assert rest[0] == ws[1];
    }
    SplitAfterSpace(ws[0], j);
    assert Join(ws) == ws[0] + " " + j;
    assert ws == [ws[0]] + rest;
  }

  /** The words of a joined word list are that list. */
  lemma WordsOfJoin(ws: seq<string>)
    requires IsWordList(ws)
    ensures CountedWords(Join(ws)) == ws
  {
    var j := Join(ws);
    if |ws| == 0 {
      assert j == [];
      assert Trim(j) == [];
      assert Split([]) == [[]];
      assert NonEmpty([[]]) == [];
    } else {
      JoinEnds(ws);
      var last := ws[|ws| - 1];
      assert ws[0] != [] && NoSpace(ws[0]) && last != [] && NoSpace(last);
      assert !IsSpace(j[0]) && !IsSpace(j[|j| - 1]);
      TrimNoop(j);
      SplitJoin(ws);
      NonEmptyOfWordList(ws);
      assert CountedWords(j) == NonEmpty(Split(j)) == NonEmpty(ws);
    }
  }

  // ---------------------------------------------------------------------
  // The words of any text

  /** Non-empty runs of whitespace, the gaps between the words of a text. */
  predicate IsGapList(gaps: seq<string>) {
    forall i :: 0 <= i < |gaps| ==> gaps[i] != [] && AllSpace(gaps[i])
  }

  /** The words `ws` with the gap `gaps[i]` between `ws[i]` and `ws[i + 1]`. */
  function JoinWith(ws: seq<string>, gaps: seq<string>): string
    requires |gaps| == if |ws| == 0 then 0 else |ws| - 1
  {
    if |ws| == 0 then "" else if |ws| == 1 then ws[0]
    else ws[0] + gaps[0] + JoinWith(ws[1..], gaps[1..])
  }

  /** Leading whitespace before text that starts with a word is what
      `TrimStart` drops. */
  lemma TrimStartOfPadded(lead: string, t: string)
    requires AllSpace(lead) && (t == [] || !IsSpace(t[0]))
    ensures TrimStart(lead + t) == t
  {
    var s := lead + t;
    assert SpacePrefix(s) == |lead|;
    assert s[|lead|..] == t;
  }

  /** Trailing whitespace after text that ends with a word is what
      `TrimEnd` drops. */
  lemma TrimEndOfPadded(t: string, trail: string)
    requires AllSpace(trail) && (t == [] || !IsSpace(t[|t| - 1]))
    ensures TrimEnd(t + trail) == t
  {
    var s := t + trail;
    assert SpaceSuffix(s) == |trail|;
    assert s[..|t|] == t;
  }

  /** A text made of words and gaps starts and ends with a word character. */
  lemma {:induction false} JoinWithEnds(ws: seq<string>, gaps: seq<string>)
    requires IsWordList(ws) && IsGapList(gaps) && |ws| > 0 && |gaps| == |ws| - 1
    ensures var j := JoinWith(ws, gaps);
      |j| > 0 && j[0] == ws[0][0] && j[|j| - 1] == ws[|ws| - 1][|ws[|ws| - 1]| - 1]
  {
    assert ws[0] != [];
    if |ws| > 1 {
      var rest := ws[1..];
      JoinWithEnds(rest, gaps[1..]);
      var j, t := JoinWith(ws, gaps), JoinWith(rest, gaps[1..]);
      assert j == ws[0] + gaps[0] + t;
      assert rest[|rest| - 1] == ws[|ws| - 1];
      assert j[|j| - 1] == t[|t| - 1];
    }
  }

  /** Splitting a word, a gap and text that starts with a word continues on
      that text. */
  lemma SplitAfterGap(w: string, g: string, j: string)
    requires w != [] && NoSpace(w) && g != [] && AllSpace(g) && j != [] && !IsSpace(j[0])
    ensures Split(w + g + j) == [w] + Split(j)
  {
    var s := w + g + j;
    LeadingWordOfConcat(w, g + j);
    assert s == w + (g + j);
    assert s[|w|..] == g + j;
    TrimStartOfPadded(g, j);
  }

  /** `split(/\s+/)` of words separated by any gaps gives the words back. */
  lemma {:induction false} SplitJoinWith(ws: seq<string>, gaps: seq<string>)
    requires IsWordList(ws) && IsGapList(gaps) && |ws| > 0 && |gaps| == |ws| - 1
    ensures Split(JoinWith(ws, gaps)) == ws
  {
    if |ws| == 1 {
      SplitWord(ws[0]);
    } else {
      var rest, grest := ws[1..], gaps[1..];
      SplitJoinWith(rest, grest);
      var j := JoinWith(rest, grest);
      JoinWithEnds(rest, grest);
      assert !IsSpace(j[0]) by {
        assert rest[0] == ws[1];
      }
      SplitAfterGap(ws[0], gaps[0], j);
      assert ws == [ws[0]] + rest;
    }
  }

  /** Trimming words separated by gaps, with whitespace around them, leaves
      the words and the gaps. */
  lemma TrimOfSpacedText(lead: string, ws: seq<string>, gaps: seq<string>, trail: string)
    requires IsWordList(ws) && IsGapList(gaps) && AllSpace(lead) && AllSpace(trail)
    requires |ws| > 0 && |gaps| == |ws| - 1
    ensures Trim(lead + JoinWith(ws, gaps) + trail) == JoinWith(ws, gaps)
  {
    var j := JoinWith(ws, gaps);
    JoinWithEnds(ws, gaps);
    var last := ws[|ws| - 1];
    assert ws[0] != [] && last != [] && NoSpace(ws[0]) && NoSpace(last);
    assert lead + j + trail == lead + (j + trail);
    TrimStartOfPadded(lead, j + trail);
    TrimEndOfPadded(j, trail);
  }

  /** The words `countWords` counts in a text of words separated by gaps of
      any whitespace, with any whitespace before and after, are exactly
      those words, in order. */
  lemma WordsOfSpacedText(lead: string, ws: seq<string>, gaps: seq<string>, trail: string)
    requires IsWordList(ws) && IsGapList(gaps) && AllSpace(lead) && AllSpace(trail)
    requires |gaps| == if |ws| == 0 then 0 else |ws| - 1
    ensures CountedWords(lead + JoinWith(ws, gaps) + trail) == ws
  {
    var text := lead + JoinWith(ws, gaps) + trail;
    if |ws| == 0 {
      assert AllSpace(text) by {
        assert text == lead + trail;
      }
      CountWordsZeroIffBlank(text);
    } else {
      TrimOfSpacedText(lead, ws, gaps, trail);
      SplitJoinWith(ws, gaps);
      NonEmptyOfWordList(ws);
    }
  }

  lemma JoinWithCons(w: string, g: string, ws: seq<string>, gaps: seq<string>)
    requires |ws| > 0 && |gaps| == |ws| - 1
    ensures JoinWith([w] + ws, [g] + gaps) == w + g + JoinWith(ws, gaps)
  {
    assert ([w] + ws)[1..] == ws && ([g] + gaps)[1..] == gaps;
  }

  /** Text without outer whitespace is its split pieces separated by gaps. */
  lemma {:induction false} SplitDecomposes(s: string) returns (gaps: seq<string>)
    requires s != [] && !IsSpace(s[0]) && !IsSpace(s[|s| - 1])
    ensures |gaps| == |Split(s)| - 1 && IsGapList(gaps)
    ensures s == JoinWith(Split(s), gaps)
    decreases |s|
  {
    var w := LeadingWord(s);
    if |w| == |s| {
      gaps := [];
      assert w == s;
    } else {
      var t := TrimStart(s[|w|..]);
      var sp := SplitGap(s);
      assert t[|t| - 1] == s[|s| - 1];
      var rest := SplitDecomposes(t);
      gaps := DecomposeStep(s, w, sp, t, Split(t), rest);
    }
  }

  /** One step of `SplitDecomposes`: the gap after the leading word comes
      before the gaps of the rest. */
  lemma DecomposeStep(s: string, w: string, sp: string, t: string, pieces: seq<string>, rest: seq<string>)
    returns (gaps: seq<string>)
    requires s == w + sp + t && sp != [] && AllSpace(sp) && |LeadingWord(s)| < |s|
    requires w == LeadingWord(s) && t == TrimStart(s[|w|..]) && pieces == Split(t)
    requires |rest| == |pieces| - 1 && IsGapList(rest) && t == JoinWith(pieces, rest)
    ensures |gaps| == |Split(s)| - 1 && IsGapList(gaps)
    ensures s == JoinWith(Split(s), gaps)
  {
    gaps := [sp] + rest;
    assert Split(s) == [w] + pieces;
    JoinWithCons(w, sp, pieces, rest);
  }

  /** Text without outer whitespace is its non-empty split pieces
      separated by gaps. */
  lemma TrimmedIsSpacedWords(t: string) returns (gaps: seq<string>)
    requires t == [] || (!IsSpace(t[0]) && !IsSpace(t[|t| - 1]))
    ensures IsGapList(gaps)
    ensures |gaps| == if |NonEmpty(Split(t))| == 0 then 0 else |NonEmpty(Split(t))| - 1
    ensures t == JoinWith(NonEmpty(Split(t)), gaps)
  {
    if t == [] {
      gaps := [];
      assert Split(t) == [[]];
      assert NonEmpty([[]]) == [];
    } else {
      gaps := SplitDecomposes(t);
      SplitTrimmedIsWordList(t);
      NonEmptyOfWordList(Split(t));
    }
  }

  /** `TrimStart` drops a prefix of whitespace and leaves text that is empty
      or starts with a word character. */
  lemma TrimStartSplitsText(s: string) returns (lead: string)
    ensures AllSpace(lead) && s == lead + TrimStart(s)
    ensures TrimStart(s) == [] || !IsSpace(TrimStart(s)[0])
  {
    lead := s[..SpacePrefix(s)];
  }

  /** `TrimEnd` drops a suffix of whitespace and leaves text that is empty
      or ends with a word character. */
  lemma TrimEndSplitsText(s: string) returns (trail: string)
    ensures AllSpace(trail) && s == TrimEnd(s) + trail
    ensures var t := TrimEnd(s); t == [] || !IsSpace(t[|t| - 1])
  {
    var m := SpaceSuffix(s);
    trail := s[|s| - m..];
    forall i | 0 <= i < |trail|
      ensures IsSpace(trail[i])
    {
      assert trail[i] == s[|s| - m + i];
    }
  }

  /** Every text is the whitespace `trim` drops in front, the trimmed text,
      and the whitespace it drops behind. */
  lemma TrimSplitsText(text: string) returns (lead: string, trail: string)
    ensures AllSpace(lead) && AllSpace(trail) && text == lead + Trim(text) + trail
    ensures var t := Trim(text); t == [] || (!IsSpace(t[0]) && !IsSpace(t[|t| - 1]))
  {
    var a := TrimStart(text);
    lead := TrimStartSplitsText(text);
    trail := TrimEndSplitsText(a);
    var t := TrimEnd(a);
    assert t == a[..|t|];
    if t != [] {
      assert t[0] == a[0];
    }
  }

  /** Every text is whitespace, its counted words separated by gaps, and
      whitespace: with `WordsOfSpacedText` this says the counted words are
      the maximal runs of non-whitespace characters, in order. */
  lemma TextIsSpacedWords(text: string) returns (lead: string, gaps: seq<string>, trail: string)
    ensures AllSpace(lead) && AllSpace(trail) && IsGapList(gaps)
    ensures |gaps| == if |CountedWords(text)| == 0 then 0 else |CountedWords(text)| - 1
    ensures text == lead + JoinWith(CountedWords(text), gaps) + trail
  {
    lead, trail := TrimSplitsText(text);
    gaps := TrimmedIsSpacedWords(Trim(text));
  }

  // ---------------------------------------------------------------------
  // The truncation pass of updateWordCount

  /** `text.trim().split(/\s+/).slice(0, 15).join(' ')` */
  function Truncated(text: string): string {
    var pieces := Split(Trim(text));
    Join(pieces[..Min(MaxWords, |pieces|)])
  }

  /** `s.length`: JavaScript measures strings in UTF-16 code units, two for
      a character above U+FFFF. A Dafny `char` is a Unicode scalar value, so
      a lone surrogate cannot occur. */
  function Utf16Length(s: string): (n: nat)
    ensures |s| <= n <= 2 * |s|
    ensures (forall i :: 0 <= i < |s| ==> s[i] <= '\U{FFFF}') ==> n == |s|
  {
    if |s| == 0 then 0
    else Utf16Length(s[..|s| - 1]) + (if s[|s| - 1] <= '\U{FFFF}' then 1 else 2)
  }

  /** The text of the editor and the cursor position (`selectionStart`, in
      UTF-16 code units). */
  datatype Editor = Editor(text: string, cursor: nat)

  /** The truncation pass: over the limit, the text becomes its first 15
      words and the cursor is clamped to the new length. */
  function EnforceLimit(e: Editor): Editor {
    if CountWords(e.text) > MaxWords then
      var t := Truncated(e.text);
      Editor(t, Min(e.cursor, Utf16Length(t)))
    else e
  }

  /** Over the limit, truncation keeps exactly the first 15 words, joined by
      single spaces, and the result holds 15 words. */
  lemma TruncationKeepsFirstWords(text: string)
    requires CountWords(text) > MaxWords
    ensures Truncated(text) == Join(CountedWords(text)[..MaxWords])
    ensures CountedWords(Truncated(text)) == CountedWords(text)[..MaxWords]
    ensures CountWords(Truncated(text)) == MaxWords
  {
    var s := Trim(text);
    var pieces := Split(s);
    SplitTrimmedIsWordList(s);
    NonEmptyOfWordList(pieces);
    assert CountedWords(text) == pieces;
    var first := pieces[..MaxWords];
    assert Truncated(text) == Join(first);
    assert IsWordList(first);
    WordsOfJoin(first);
  }

  /** After the truncation pass the note is within the limit and the cursor
      lies within the text; text within the limit is left as it is. */
  lemma EnforceLimitBounds(e: Editor)
    requires e.cursor <= Utf16Length(e.text)
    ensures var r := EnforceLimit(e);
      && CountWords(r.text) <= MaxWords
      && r.cursor <= Utf16Length(r.text)
      && (CountWords(e.text) <= MaxWords ==> r == e)
      && (CountWords(e.text) > MaxWords ==> r.cursor == Min(e.cursor, Utf16Length(r.text)) && r.cursor <= e.cursor)
  {
    if CountWords(e.text) > MaxWords {
      TruncationKeepsFirstWords(e.text);
    }
  }

  /** A second truncation pass changes nothing. */
  lemma EnforceLimitIdempotent(e: Editor)
    ensures EnforceLimit(EnforceLimit(e)) == EnforceLimit(e)
  {
    if CountWords(e.text) > MaxWords {
      var r := EnforceLimit(e);
      TruncationKeepsFirstWords(e.text);
      assert CountWords(r.text) == MaxWords;
    }
  }

  // ---------------------------------------------------------------------
  // The Enter-key guard of the note editor

  /** The key-down handler cancels Enter once the note holds 15 words or more. */
  predicate EnterSuppressed(key: string, text: string) {
    key == "Enter" && CountWords(text) >= MaxWords
  }

  /** Inserting one line break splits at most one run in two. */
  lemma NewlineAddsAtMostOneRun(a: string, b: string)
    ensures NumRuns(a + "\n" + b) <= NumRuns(a + b) + 1
  {
    RunsOfConcat(a, "\n");
    RunsOfConcat(a + "\n", b);
    RunsOfConcat(a, b);
  }

  /** An Enter the guard lets through cannot take the note over the limit:
      the line break it inserts at the cursor adds at most one word to a note
      of fewer than 15. */
  lemma EnterKeepsLimit(text: string, cursor: nat)
    requires cursor <= |text| && !EnterSuppressed("Enter", text)
    ensures CountWords(text[..cursor] + "\n" + text[cursor..]) <= MaxWords
  {
    assert text == text[..cursor] + text[cursor..];
    NewlineAddsAtMostOneRun(text[..cursor], text[cursor..]);
    CountWordsIsRuns(text);
    CountWordsIsRuns(text[..cursor] + "\n" + text[cursor..]);
  }
}
