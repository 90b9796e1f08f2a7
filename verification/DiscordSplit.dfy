/** Splitting a long reply into Discord messages, at line breaks where possible. */
module DiscordSplit {
  const MAX_MESSAGE_LEN: nat := 2000

  function LStripNewlines(s: string): string {
    if s != "" && s[0] == '\n' then LStripNewlines(s[1..]) else s
  }

  /** No line break in the first window from `lo` on. */
  predicate NoNewline(text: string, lo: nat)
    requires MAX_MESSAGE_LEN < |text|
  {
    forall i :: lo <= i < MAX_MESSAGE_LEN ==> text[i] != '\n'
  }

  /** The cut is at the last line break of the first window that leaves a non-empty chunk, else at its end. */
  predicate GoodCut(text: string, n: nat) {
    && 0 < n <= MAX_MESSAGE_LEN < |text|
    && (n < MAX_MESSAGE_LEN ==> text[n] == '\n')
    && NoNewline(text, if n < MAX_MESSAGE_LEN then n + 1 else 1)
  }

  predicate SplitsAs(text: string, chunks: seq<string>)
    decreases |chunks|
  {
    if |text| <= MAX_MESSAGE_LEN then chunks == if text == "" then [] else [text]
    else
      && chunks != [] && chunks[0] <= text && GoodCut(text, |chunks[0]|)
      && SplitsAs(LStripNewlines(text[|chunks[0]|..]), chunks[1..])
  }

  lemma CutIsGood(text: string, n: nat)
    requires 0 < n <= MAX_MESSAGE_LEN < |text|
    requires n < MAX_MESSAGE_LEN ==> text[n] == '\n' && NoNewline(text, n + 1)
    requires n == MAX_MESSAGE_LEN ==> NoNewline(text, 1)
    ensures GoodCut(text, n)
  {}

  lemma SplitsCons(text: string, n: nat, rest: seq<string>)
    requires |text| > MAX_MESSAGE_LEN && GoodCut(text, n) && SplitsAs(LStripNewlines(text[n..]), rest)
    ensures SplitsAs(text, [text[..n]] + rest)
  {
    var chunks := [text[..n]] + rest;
    assert chunks[1..] == rest;
  }

  lemma SplitsShort(text: string)
    requires |text| <= MAX_MESSAGE_LEN
    ensures SplitsAs(text, if text == "" then [] else [text])
  {}

  method SplitText(text: string) returns (chunks: seq<string>)
    ensures text == "" ==> chunks == [""]
    ensures text != "" ==> SplitsAs(text, chunks)
  {
    hide SplitsAs, GoodCut, LStripNewlines;
    if text == "" { return [""]; }
    chunks := [];
    var remaining := text;
    assert forall rest: seq<string> :: chunks + rest == rest;
    while |remaining| > MAX_MESSAGE_LEN
      invariant forall rest :: SplitsAs(remaining, rest) ==> SplitsAs(text, chunks + rest)
      decreases |remaining|
    {
      var splitAt := LastNewline(remaining);
      if splitAt <= 0 { splitAt := MAX_MESSAGE_LEN; }
      var next := LStripNewlines(remaining[splitAt..]);
      NewlinesOnly(remaining[splitAt..]);
      CutIsGood(remaining, splitAt);
      forall rest | SplitsAs(next, rest) ensures SplitsAs(text, chunks + [remaining[..splitAt]] + rest) {
        var more := [remaining[..splitAt]] + rest;
        SplitsCons(remaining, splitAt, rest);
        assert chunks + [remaining[..splitAt]] + rest == chunks + more;
      }
      chunks := chunks + [remaining[..splitAt]];
      remaining := next;
    }
    SplitsShort(remaining);
    if remaining != "" {
      chunks := chunks + [remaining];
    } else {
      assert chunks + [] == chunks;
    }
  }

  /** `rfind("\n", 0, 2000)`. */
  method LastNewline(s: string) returns (at: int)
    requires |s| > MAX_MESSAGE_LEN
    ensures -1 <= at < MAX_MESSAGE_LEN
    ensures at >= 0 ==> s[at] == '\n'
    ensures NoNewline(s, at + 1)
  {
    at := MAX_MESSAGE_LEN - 1;
    while at >= 0 && s[at] != '\n'
      invariant -1 <= at < MAX_MESSAGE_LEN && NoNewline(s, at + 1)
    {
      at := at - 1;
    }
  }

  /** Stripping removes a run of newlines from the front and nothing else. */
  lemma {:induction false} NewlinesOnly(s: string)
    ensures
      var t := LStripNewlines(s);
      && |t| <= |s| && t == s[|s| - |t|..] && (t == "" || t[0] != '\n')
      && forall i :: 0 <= i < |s| - |t| ==> s[i] == '\n'
  {
    if s != "" && s[0] == '\n' {
      NewlinesOnly(s[1..]);
      var t := LStripNewlines(s);
      forall i | 0 <= i < |s| - |t| ensures s[i] == '\n' {
        if i > 0 { assert s[i] == s[1..][i - 1]; }
      }
    }
  }

  lemma SplitsHead(text: string, chunks: seq<string>)
    requires SplitsAs(text, chunks) && |text| > MAX_MESSAGE_LEN
    ensures chunks != [] && chunks[0] <= text && 0 < |chunks[0]| <= MAX_MESSAGE_LEN
    ensures SplitsAs(LStripNewlines(text[|chunks[0]|..]), chunks[1..])
  {}

  predicate AllNewlines(s: string) {
    forall i :: 0 <= i < |s| ==> s[i] == '\n'
  }

  function Weave(chunks: seq<string>, gaps: seq<string>): string
    requires |chunks| == |gaps|
  {
    if chunks == [] then "" else chunks[0] + gaps[0] + Weave(chunks[1..], gaps[1..])
  }

  /**
   Every split: no chunk is empty or too long, none but the first starts with a newline, and the text is the
   chunks in order, each followed by a possibly empty run of newlines.
   */
  lemma {:induction false} SplitLosesOnlyNewlines(text: string, chunks: seq<string>) returns (gaps: seq<string>)
    requires SplitsAs(text, chunks)
    ensures forall i :: 0 <= i < |chunks| ==> 0 < |chunks[i]| <= 2000
    ensures forall i :: 1 <= i < |chunks| ==> chunks[i][0] != '\n'
    ensures |gaps| == |chunks| && forall i :: 0 <= i < |gaps| ==> AllNewlines(gaps[i])
    ensures text == Weave(chunks, gaps)
    decreases |chunks|
  {
    if |text| <= MAX_MESSAGE_LEN {
      gaps := if text == "" then [] else [""];
      ShortLosesNothing(text, chunks, gaps);
    } else {
      SplitsHead(text, chunks);
      hide *;
      var head, tail := chunks[0], text[|chunks[0]|..];
      var rest := SplitLosesOnlyNewlines(LStripNewlines(tail), chunks[1..]);
      var gap := StrippedGap(tail);
      gaps := [gap] + rest;
      WeaveCons(text, chunks, gap, rest);
      AllFit(chunks);
      NewlinesOnly(tail);
      if |chunks| > 1 { StartsAsText(LStripNewlines(tail), chunks[1..]); }
      NoneStartsWithNewline(chunks);
    }
  }

  lemma ShortLosesNothing(text: string, chunks: seq<string>, gaps: seq<string>)
    requires chunks == (if text == "" then [] else [text]) && gaps == if text == "" then [] else [""]
    ensures text == Weave(chunks, gaps)
  {
    if text != "" {
      assert chunks[1..] == [] && gaps[1..] == [];
      assert text == chunks[0] + gaps[0] + "";
    }
  }

  lemma StartsAsText(text: string, chunks: seq<string>)
    requires SplitsAs(text, chunks) && chunks != []
    ensures text != "" && chunks[0] != "" && chunks[0][0] == text[0]
  {
  }

  lemma NoneStartsWithNewline(chunks: seq<string>)
    requires chunks != [] && (|chunks| > 1 ==> chunks[1] != "" && chunks[1][0] != '\n')
    requires forall i :: 1 <= i < |chunks[1..]| ==> chunks[1..][i] != "" && chunks[1..][i][0] != '\n'
    ensures forall i :: 1 <= i < |chunks| ==> chunks[i] != "" && chunks[i][0] != '\n'
  {
    forall i | 2 <= i < |chunks| ensures chunks[i] != "" && chunks[i][0] != '\n' {
      assert chunks[i] == chunks[1..][i - 1];
    }
  }

  lemma AllFit(chunks: seq<string>)
    requires chunks != [] && 0 < |chunks[0]| <= MAX_MESSAGE_LEN
    requires forall i :: 0 <= i < |chunks[1..]| ==> 0 < |chunks[1..][i]| <= MAX_MESSAGE_LEN
    ensures forall i :: 0 <= i < |chunks| ==> 0 < |chunks[i]| <= MAX_MESSAGE_LEN
  {
    forall i | 1 <= i < |chunks| ensures 0 < |chunks[i]| <= MAX_MESSAGE_LEN { assert chunks[i] == chunks[1..][i - 1]; }
  }

  lemma StrippedGap(s: string) returns (gap: string)
    ensures s == gap + LStripNewlines(s) && AllNewlines(gap)
  {
    NewlinesOnly(s);
    gap := s[..|s| - |LStripNewlines(s)|];
  }

  lemma WeaveCons(text: string, chunks: seq<string>, gap: string, gaps: seq<string>)
    requires chunks != [] && |gaps| == |chunks| - 1 && chunks[0] <= text
    requires text[|chunks[0]|..] == gap + Weave(chunks[1..], gaps)
    ensures text == Weave(chunks, [gap] + gaps)
  {
    assert ([gap] + gaps)[1..] == gaps;
    assert text == chunks[0] + text[|chunks[0]|..];
    assert chunks[0] + (gap + Weave(chunks[1..], gaps)) == chunks[0] + gap + Weave(chunks[1..], gaps);
  }
}
