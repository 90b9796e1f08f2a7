/** The setup wizard's `.env` reader and its line-preserving merge writer. */
module EnvFile {
  import opened Options
  import opened Text

  /******* Text files as lines *******/

  /** The line boundaries of `str.splitlines`. */
  predicate IsBreak(c: char) {
    '\n' <= c <= '\r' || '\U{1C}' <= c <= '\U{1E}' || c == '\U{85}' || c == '\U{2028}' || c == '\U{2029}'
  }

  lemma BreaksAre(c: char)
    ensures IsBreak(c) <==> c in {'\n', '\U{B}', '\U{C}', '\r', '\U{1C}', '\U{1D}', '\U{1E}', '\U{85}', '\U{2028}',
                                 '\U{2029}'}
  {
  }

  predicate OneLine(s: string) {
    forall i :: 0 <= i < |s| ==> !IsBreak(s[i])
  }

  /** Reading in text mode turns "\r\n" and "\r" into "\n". */
  function Universal(s: string): string {
    if s == "" then ""
    else if s[0] != '\r' then [s[0]] + Universal(s[1..])
    else if |s| > 1 && s[1] == '\n' then Universal(s[1..])
    else "\n" + Universal(s[1..])
  }

  /** `splitlines` on text without "\r". */
  function SplitLines(s: string): seq<string> {
    if s == "" then [] else SplitFrom("", s)
  }

  function SplitFrom(line: string, s: string): seq<string>
    decreases |s|
  {
    if s == "" then (if line == "" then [] else [line])
    else if IsBreak(s[0]) then [line] + SplitFrom("", s[1..])
    else SplitFrom(line + [s[0]], s[1..])
  }

  function Unlines(lines: seq<string>): string {
    if lines == [] then "" else lines[0] + "\n" + Unlines(lines[1..])
  }

  /** `"\n".join(lines) + "\n"`. */
  function FileText(lines: seq<string>): string {
    if lines == [] then "\n" else Unlines(lines)
  }

  function ReadLines(file: Option<string>): seq<string> {
    if file.None? then [] else SplitLines(Universal(file.value))
  }

  lemma {:induction false} SplitFromLine(line: string, rest: string, end: char, tail: string)
    requires OneLine(rest) && IsBreak(end)
    ensures SplitFrom(line, rest + [end] + tail) == [line + rest] + SplitFrom("", tail)
    decreases |rest|
  {
    var s := rest + [end] + tail;
    if rest == "" {
      assert s[1..] == tail && line + rest == line;
    } else {
      assert s[1..] == rest[1..] + [end] + tail;
      SplitFromLine(line + [rest[0]], rest[1..], end, tail);
      assert line + [rest[0]] + rest[1..] == line + rest;
    }
  }

  lemma {:induction false} SplitOfUnlines(lines: seq<string>)
    requires forall i :: 0 <= i < |lines| ==> OneLine(lines[i])
    ensures SplitFrom("", Unlines(lines)) == lines
  {
    if lines != [] {
      SplitFromLine("", lines[0], '\n', Unlines(lines[1..]));
      SplitOfUnlines(lines[1..]);
      assert "" + lines[0] == lines[0];
    }
  }

  lemma {:induction false} SplitFromOneLine(line: string, s: string)
    requires OneLine(line)
    ensures forall i :: 0 <= i < |SplitFrom(line, s)| ==> OneLine(SplitFrom(line, s)[i])
    decreases |s|
  {
    if s != "" {
      if IsBreak(s[0]) { SplitFromOneLine("", s[1..]); } else { SplitFromOneLine(line + [s[0]], s[1..]); }
    }
  }

  lemma {:induction false} UniversalIdle(s: string)
    requires '\r' !in s
    ensures Universal(s) == s
  {
    if s != "" {
      UniversalIdle(s[1..]);
      assert s == [s[0]] + s[1..];
    }
  }

  lemma {:induction false} UnlinesNoReturn(lines: seq<string>)
    requires forall i :: 0 <= i < |lines| ==> OneLine(lines[i])
    ensures '\r' !in Unlines(lines)
  {
    if lines != [] { UnlinesNoReturn(lines[1..]); }
  }

  /** What was written is read back line by line. */
  lemma ReadOfWritten(lines: seq<string>)
    requires forall i :: 0 <= i < |lines| ==> OneLine(lines[i])
    ensures ReadLines(Some(FileText(lines))) == if lines == [] then [""] else lines
  {
    var shown := if lines == [] then [""] else lines;
    assert FileText(lines) == Unlines(shown) by {
      if lines == [] { assert Unlines([""]) == "" + "\n" + Unlines([""][1..]); }
    }
    UnlinesNoReturn(shown);
    UniversalIdle(Unlines(shown));
    SplitOfUnlines(shown);
  }

  lemma {:induction false} UniversalLine(line: string, tail: string)
    requires '\r' !in line
    ensures Universal(line + tail) == line + Universal(tail)
  {
    if line == "" {
      assert line + tail == tail;
    } else {
      assert (line + tail)[1..] == line[1..] + tail;
      UniversalLine(line[1..], tail);
      assert line == [line[0]] + line[1..];
    }
  }

  /** What ends a line: one break character, or "\r\n"; a "\r" before a "\n" does not end it alone. */
  predicate LineEnd(end: string, rest: string) {
    end == "\r\n" || (|end| == 1 && IsBreak(end[0]) && (end == "\r" ==> rest == "" || rest[0] != '\n'))
  }

  lemma UniversalEnd(end: string, rest: string)
    requires LineEnd(end, rest)
    ensures exists c :: IsBreak(c) && Universal(end + rest) == [c] + Universal(rest)
  {
    var s := end + rest;
    if end == "\r\n" {
      assert s[1..] == ['\n'] + rest && s[1..][1..] == rest;
      assert Universal(s) == ['\n'] + Universal(rest);
    } else if end == "\r" {
      assert s[1..] == rest;
      assert Universal(s) == ['\n'] + Universal(rest);
    } else {
      assert end == [end[0]] && s[0] == end[0] && s[1..] == rest;
      assert Universal(s) == [end[0]] + Universal(rest);
    }
  }

  /** Every line up to its end is a line, whatever follows. */
  lemma ReadsLineByLine(line: string, end: string, rest: string)
    requires OneLine(line) && LineEnd(end, rest)
    ensures ReadLines(Some(line + end + rest)) == [line] + ReadLines(Some(rest))
  {
    assert line + end + rest == line + (end + rest);
    UniversalLine(line, end + rest);
    UniversalEnd(end, rest);
    var c :| IsBreak(c) && Universal(end + rest) == [c] + Universal(rest);
    assert line + ([c] + Universal(rest)) == line + [c] + Universal(rest);
    SplitFromLine("", line, c, Universal(rest));
    assert "" + line == line;
  }

  /** A last line that nothing ends is a line too. */
  lemma {:induction false} SplitOfLast(line: string, last: string)
    requires OneLine(last) && line + last != ""
    ensures SplitFrom(line, last) == [line + last]
    decreases |last|
  {
    if last == "" {
      assert line + last == line;
    } else {
      SplitOfLast(line + [last[0]], last[1..]);
      assert line + [last[0]] + last[1..] == line + last;
    }
  }

  lemma {:induction false} UnterminatedLine(lines: seq<string>, last: string)
    requires (forall i :: 0 <= i < |lines| ==> OneLine(lines[i])) && OneLine(last) && last != ""
    ensures ReadLines(Some(Unlines(lines) + last)) == lines + [last]
  {
    if lines == [] {
      assert Unlines(lines) + last == last;
      UniversalIdle(last);
      SplitOfLast("", last);
      assert "" + last == last;
    } else {
      var rest := Unlines(lines[1..]) + last;
      assert Unlines(lines) + last == lines[0] + "\n" + rest;
      ReadsLineByLine(lines[0], "\n", rest);
      UnterminatedLine(lines[1..], last);
    }
  }

  /** The characters of a text that break no line. */
  function Unbroken(s: string): string {
    if s == "" then "" else (if IsBreak(s[0]) then "" else [s[0]]) + Unbroken(s[1..])
  }

  function Joined(lines: seq<string>): string {
    if lines == [] then "" else lines[0] + Joined(lines[1..])
  }

  lemma {:induction false} UniversalUnbroken(s: string)
    ensures Unbroken(Universal(s)) == Unbroken(s)
  {
    if s != "" {
      UniversalUnbroken(s[1..]);
      if s[0] != '\r' {
        assert ([s[0]] + Universal(s[1..]))[1..] == Universal(s[1..]);
      } else {
        assert ("\n" + Universal(s[1..]))[1..] == Universal(s[1..]);
      }
    }
  }

  lemma {:induction false} SplitFromLosesNothing(line: string, s: string)
    ensures Joined(SplitFrom(line, s)) == line + Unbroken(s)
    decreases |s|
  {
    if s == "" {
      if line != "" { assert [line][1..] == []; }
    } else if IsBreak(s[0]) {
      SplitFromLosesNothing("", s[1..]);
      assert ([line] + SplitFrom("", s[1..]))[1..] == SplitFrom("", s[1..]);
    } else {
      SplitFromLosesNothing(line + [s[0]], s[1..]);
    }
  }

  /** Reading a text as lines loses its line breaks and nothing else. */
  lemma ReadLosesOnlyBreaks(text: string)
    ensures Joined(ReadLines(Some(text))) == Unbroken(text)
  {
    UniversalUnbroken(text);
    SplitFromLosesNothing("", Universal(text));
  }

  /******* Lines as settings *******/

  type Env = map<string, string>

  type Pairs = seq<(string, string)>  // a Python dict: distinct keys, in order

  /** The setting a line makes, if any. */
  function ParseLine(line: string): Option<(string, string)> {
    var s := Strip(line);
    if s == "" || s[0] == '#' then None
    else match Partition(s, '=')
      case None => None
      case Some(parts) => Some((Strip(parts.0), Strip(parts.1)))
  }

  function Entries(lines: seq<string>): Env {
    if lines == [] then map[]
    else
      var before, setting := Entries(lines[..|lines| - 1]), ParseLine(lines[|lines| - 1]);
      if setting.None? then before else before[setting.value.0 := setting.value.1]
  }

  function PairsMap(pairs: Pairs): Env {
    if pairs == [] then map[]
    else PairsMap(pairs[..|pairs| - 1])[pairs[|pairs| - 1].0 := pairs[|pairs| - 1].1]
  }

  predicate Distinct(pairs: Pairs) {
    forall i, j :: 0 <= i < j < |pairs| ==> pairs[i].0 != pairs[j].0
  }

  function Setting(key: string, value: string): string {
    key + "=" + value
  }

  predicate Related(line: string, env: Env) {
    ParseLine(line).Some? && ParseLine(line).value.0 in env
  }

  function Rewrite(line: string, env: Env): string {
    if Related(line, env) then Setting(ParseLine(line).value.0, env[ParseLine(line).value.0]) else line
  }

  function RewriteAll(lines: seq<string>, env: Env): (r: seq<string>)
    ensures |r| == |lines|
  {
    seq(|lines|, i requires 0 <= i < |lines| => Rewrite(lines[i], env))
  }

  /** Settings for the keys not in `done`. */
  function Missing(pairs: Pairs, done: set<string>): seq<string> {
    if pairs == [] then []
    else
      var last := pairs[|pairs| - 1];
      Missing(pairs[..|pairs| - 1], done) + (if last.0 in done then [] else [Setting(last.0, last.1)])
  }

  function NewLines(lines: seq<string>, pairs: Pairs): seq<string> {
    RewriteAll(lines, PairsMap(pairs)) + Missing(pairs, Entries(lines).Keys)
  }

  function Written(file: Option<string>, pairs: Pairs): string {
    FileText(NewLines(ReadLines(file), pairs))
  }

  /******* Clean settings *******/

  predicate CleanKey(key: string) {
    Trimmed(key) && OneLine(key) && '=' !in key && (key == "" || key[0] != '#')
  }

  predicate CleanValue(value: string) {
    Trimmed(value) && OneLine(value)
  }

  predicate AllClean(pairs: Pairs) {
    forall i :: 0 <= i < |pairs| ==> CleanKey(pairs[i].0) && CleanValue(pairs[i].1)
  }

  predicate CleanEnv(env: Env) {
    forall key :: key in env ==> CleanKey(key) && CleanValue(env[key])
  }

  /** A clean setting parses back to itself. */
  lemma ParseOfSetting(key: string, value: string)
    requires CleanKey(key) && CleanValue(value)
    ensures ParseLine(Setting(key, value)) == Some((key, value)) && OneLine(Setting(key, value))
  {
    var line := Setting(key, value);
    assert line == key + ['='] + value;
    assert !IsSpace('=');
    StripTrims(line);
    PartitionOf(key, '=', value);
    StripTrims(key);
    StripTrims(value);
  }

  /** Whatever a single line sets is clean. */
  lemma ParsedIsClean(line: string)
    requires OneLine(line) && ParseLine(line).Some?
    ensures CleanKey(ParseLine(line).value.0) && CleanValue(ParseLine(line).value.1)
  {
    hide IsSpace, IsBreak;
    var s := Strip(line);
    StripTrims(line);
    PartitionSplits(s, '=');
    var parts := Partition(s, '=').value;
    StripTrims(parts.0);
    StripTrims(parts.1);
    SubstringOneLine(line, Strip(parts.0));
    SubstringOneLine(line, Strip(parts.1));
    if Strip(parts.0) != "" { FirstCharKept(s, parts.0); }
  }

  /** The line is split at its first "=", and is no comment. */
  predicate SplitsAt(line: string, i: nat, key: string, value: string) {
    && i < |line| && line[i] == '=' && '=' !in line[..i] && Strip(line[..i]) == key && Strip(line[i + 1..]) == value
    && (key == "" || key[0] != '#')
  }

  /** A line sets the text before its first "=" to the text after it, both stripped, unless it is a comment. */
  lemma ParsesIff(line: string, key: string, value: string)
    ensures ParseLine(line) == Some((key, value)) <==> exists i :: 0 <= i < |line| && SplitsAt(line, i, key, value)
  {
    hide ParseLine, SplitsAt;
    if ParseLine(line) == Some((key, value)) { ParsedSplits(line, key, value); }
    if i :| 0 <= i < |line| && SplitsAt(line, i, key, value) { SplitParses(line, i, key, value); }
  }

  lemma ParsedSplits(line: string, key: string, value: string)
    requires ParseLine(line) == Some((key, value))
    ensures exists i :: 0 <= i < |line| && SplitsAt(line, i, key, value)
  {
    hide IsSpace, Strip, Blank;
    var s := Strip(line);
    var p, q := StripRest(line);
    StripTrims(line);
    PartitionSplits(s, '=');
    var parts := Partition(s, '=').value;
    SplitAt(line, p, s, q, parts.0, parts.1);
    assert SplitsAt(line, |p| + |parts.0|, key, value);
  }

  lemma SplitParses(line: string, i: nat, key: string, value: string)
    requires SplitsAt(line, i, key, value)
    ensures ParseLine(line) == Some((key, value))
  {
    hide IsSpace, Strip, Blank;
    var s := Strip(line);
    var p, q := StripRest(line);
    StripTrims(line);
    EqualsInside(line, p, s, q, i);
    var n := i - |p|;
    assert forall j :: 0 <= j < n ==> s[j] == line[..i][|p| + j];
    assert s == s[..n] + "=" + s[n + 1..];
    SplitAt(line, p, s, q, s[..n], s[n + 1..]);
    PartitionOf(s[..n], '=', s[n + 1..]);
  }

  lemma EqualsInside(line: string, p: string, s: string, q: string, i: nat)
    requires line == p + s + q && Blank(p) && Blank(q) && i < |line| && line[i] == '='
    ensures |p| <= i < |p| + |s| && s[i - |p|] == '='
  {
    assert line[i] == if i < |p| then p[i] else if i < |p| + |s| then s[i - |p|] else q[i - |p| - |s|];
    NoEqualsInBlank(p);
    NoEqualsInBlank(q);
  }

  lemma NoEqualsInBlank(p: string)
    requires Blank(p)
    ensures '=' !in p
  {
    assert !IsSpace('=');
  }

  lemma SplitAt(line: string, p: string, s: string, q: string, before: string, after: string)
    requires line == p + s + q && Blank(p) && Blank(q) && Trimmed(s)
    requires s == before + "=" + after && '=' !in before
    ensures
      var i := |p| + |before|;
      && i < |line| && line[..i] == p + before && line[i] == '=' && line[i + 1..] == after + q && '=' !in line[..i]
      && Strip(line[..i]) == Strip(before) && Strip(line[i + 1..]) == Strip(after)
      && (s[0] == '#' <==> Strip(before) != "" && Strip(before)[0] == '#')
  {
    NoEqualsInBlank(p);
    hide IsSpace;
    var i := |p| + |before|;
    assert line[..i] == p + before + "" && line[i + 1..] == "" + after + q;
    StripPads(p, before, "");
    StripPads("", after, q);
    if before != "" {
      FirstCharStays(before);
    }
  }

  lemma FirstCharStays(s: string)
    requires s != "" && !IsSpace(s[0])
    ensures Strip(s) != "" && Strip(s)[0] == s[0]
  {
    hide IsSpace;
    assert s[0..] == s && LStrip(s) == s;
    RStripRest(s);
  }

  lemma SubstringOneLine(line: string, part: string)
    requires OneLine(line) && forall c :: c in part ==> c in line
    ensures OneLine(part)
  {
    forall i | 0 <= i < |part| ensures !IsBreak(part[i]) { assert part[i] in part && part[i] in line; }
  }

  /** A key starts with the first character of its trimmed line. */
  lemma FirstCharKept(s: string, prefix: string)
    requires Trimmed(s) && prefix <= s && Strip(prefix) != ""
    ensures Strip(prefix)[0] == s[0]
  {
    LStripStarts(prefix);
    assert LStrip(prefix) == prefix;
    RStripEnds(prefix);
  }

  lemma {:induction false} EntriesClean(lines: seq<string>)
    requires forall i :: 0 <= i < |lines| ==> OneLine(lines[i])
    ensures CleanEnv(Entries(lines))
  {
    hide CleanKey, CleanValue, ParseLine;
    if lines != [] {
      EntriesClean(lines[..|lines| - 1]);
      if ParseLine(lines[|lines| - 1]).Some? { ParsedIsClean(lines[|lines| - 1]); }
    }
  }

  /******* The merged file, read again *******/

  lemma PairsMapOf(pairs: Pairs)
    requires Distinct(pairs)
    ensures forall key :: key in PairsMap(pairs) <==> exists i :: 0 <= i < |pairs| && pairs[i].0 == key
    ensures forall i :: 0 <= i < |pairs| ==> pairs[i].0 in PairsMap(pairs) && PairsMap(pairs)[pairs[i].0] == pairs[i].1
  {
    forall key | key in PairsMap(pairs) ensures exists i :: 0 <= i < |pairs| && pairs[i].0 == key {
      var i := PairIndex(pairs, key);
    }
    forall i | 0 <= i < |pairs| ensures pairs[i].0 in PairsMap(pairs) && PairsMap(pairs)[pairs[i].0] == pairs[i].1 {
      PairAt(pairs, i);
    }
  }

  lemma {:induction false} PairAt(pairs: Pairs, i: nat)
    requires Distinct(pairs) && i < |pairs|
    ensures pairs[i].0 in PairsMap(pairs) && PairsMap(pairs)[pairs[i].0] == pairs[i].1
  {
    var n := |pairs| - 1;
    if i < n {
      assert forall k :: 0 <= k < n ==> pairs[..n][k] == pairs[k];
      PairAt(pairs[..n], i);
    }
  }

  lemma {:induction false} PairIndex(pairs: Pairs, key: string) returns (i: nat)
    requires key in PairsMap(pairs)
    ensures i < |pairs| && pairs[i].0 == key
  {
    var n := |pairs| - 1;
    if pairs[n].0 == key {
      i := n;
    } else {
      i := PairIndex(pairs[..n], key);
    }
  }

  lemma PairsMapClean(pairs: Pairs)
    requires Distinct(pairs) && AllClean(pairs)
    ensures CleanEnv(PairsMap(pairs))
  {
    hide CleanKey, CleanValue;
    PairsMapOf(pairs);
    forall key | key in PairsMap(pairs) ensures CleanKey(key) && CleanValue(PairsMap(pairs)[key]) {
      var i :| 0 <= i < |pairs| && pairs[i].0 == key;
    }
  }

  lemma EntriesSnoc(lines: seq<string>, line: string)
    ensures
      var setting := ParseLine(line);
      Entries(lines + [line]) ==
      if setting.None? then Entries(lines) else Entries(lines)[setting.value.0 := setting.value.1]
  {
    assert (lines + [line])[..|lines|] == lines;
  }

  /** Rewriting keeps the keys of the file and overrides exactly those that are being set, duplicates included. */
  lemma {:induction false} RewriteEntries(lines: seq<string>, env: Env)
    requires CleanEnv(env)
    ensures
      var was, now := Entries(lines), Entries(RewriteAll(lines, env));
      now.Keys == was.Keys && forall key :: key in was ==> now[key] == if key in env then env[key] else was[key]
  {
    hide CleanKey, CleanValue, ParseLine, Setting;
    if lines == [] {
      assert RewriteAll(lines, env) == [];
    } else {
      var n := |lines| - 1;
      RewriteEntries(lines[..n], env);
      assert RewriteAll(lines, env) == RewriteAll(lines[..n], env) + [Rewrite(lines[n], env)];
      EntriesSnoc(RewriteAll(lines[..n], env), Rewrite(lines[n], env));
      if Related(lines[n], env) {
        var key := ParseLine(lines[n]).value.0;
        ParseOfSetting(key, env[key]);
      }
    }
  }

  lemma {:induction false} MissingEntries(lines: seq<string>, pairs: Pairs, done: set<string>)
    requires AllClean(pairs)
    ensures Entries(lines + Missing(pairs, done)) == Entries(lines) + (PairsMap(pairs) - done)
  {
    hide CleanKey, CleanValue, Entries, Setting;
    if pairs == [] {
      assert lines + Missing(pairs, done) == lines;
    } else {
      var n := |pairs| - 1;
      var before, last := Missing(pairs[..n], done), pairs[n];
      MissingEntries(lines, pairs[..n], done);
      if last.0 in done {
        assert Missing(pairs, done) == before;
        OneMore(Entries(lines), PairsMap(pairs[..n]), done, last.0, last.1);
      } else {
        MissingStep(lines, before, PairsMap(pairs[..n]), done, last.0, last.1);
      }
    }
  }

  lemma MissingStep(lines: seq<string>, before: seq<string>, env: Env, done: set<string>, key: string, value: string)
    requires CleanKey(key) && CleanValue(value) && key !in done
    requires Entries(lines + before) == Entries(lines) + (env - done)
    ensures Entries(lines + (before + [Setting(key, value)])) == Entries(lines) + (env[key := value] - done)
  {
    hide *;
    ConcatAssociates(lines, before, [Setting(key, value)]);
    EntriesSnoc(lines + before, Setting(key, value));
    ParseOfSetting(key, value);
    OneMore(Entries(lines), env, done, key, value);
  }

  lemma ConcatAssociates(a: seq<string>, b: seq<string>, c: seq<string>)
    ensures a + (b + c) == (a + b) + c
  {
  }

  lemma OneMore(was: Env, env: Env, done: set<string>, key: string, value: string)
    ensures
      var more := env[key := value];
      was + (more - done) == if key in done then was + (env - done) else (was + (env - done))[key := value]
  {
  }

  lemma NewLinesEntries(lines: seq<string>, pairs: Pairs)
    requires Distinct(pairs) && AllClean(pairs)
    ensures Entries(NewLines(lines, pairs)) == Entries(lines) + PairsMap(pairs)
  {
    hide AllClean, CleanEnv, RewriteAll, Missing;
    var env := PairsMap(pairs);
    PairsMapClean(pairs);
    RewriteEntries(lines, env);
    MissingEntries(RewriteAll(lines, env), pairs, Entries(lines).Keys);
  }

  /** A later line for the same key wins. */
  lemma {:induction false} LastSettingWins(lines: seq<string>, key: string, value: string)
    ensures key in Entries(lines) && Entries(lines)[key] == value <==>
            exists i :: 0 <= i < |lines| && ParseLine(lines[i]) == Some((key, value))
                        && forall j :: i < j < |lines| ==> !SetsKey(lines[j], key)
  {
    hide ParseLine;
    if lines != [] {
      var n := |lines| - 1;
      LastSettingWins(lines[..n], key, value);
      assert forall i :: 0 <= i < n ==> lines[..n][i] == lines[i];
    }
  }

  predicate SetsKey(line: string, key: string) {
    ParseLine(line).Some? && ParseLine(line).value.0 == key
  }

  /** A new key is appended, after the new keys given before it. */
  lemma {:induction false} AppendedInOrder(pairs: Pairs, done: set<string>, j: nat)
    requires j < |pairs| && pairs[j].0 !in done
    ensures |Missing(pairs[..j], done)| < |Missing(pairs, done)|
    ensures Missing(pairs, done)[|Missing(pairs[..j], done)|] == pairs[j].0 + "=" + pairs[j].1
  {
    var n := |pairs| - 1;
    if j < n {
      AppendedInOrder(pairs[..n], done, j);
      assert pairs[..n][..j] == pairs[..j];
    }
  }

  lemma {:induction false} MissingOneLine(pairs: Pairs, done: set<string>)
    requires AllClean(pairs)
    ensures forall i :: 0 <= i < |Missing(pairs, done)| ==> OneLine(Missing(pairs, done)[i])
  {
    hide CleanKey, CleanValue, OneLine, Setting;
    if pairs != [] {
      MissingOneLine(pairs[..|pairs| - 1], done);
      ParseOfSetting(pairs[|pairs| - 1].0, pairs[|pairs| - 1].1);
    }
  }

  lemma NewLinesOneLine(lines: seq<string>, pairs: Pairs)
    requires Distinct(pairs) && AllClean(pairs)
    requires forall i :: 0 <= i < |lines| ==> OneLine(lines[i])
    ensures forall i :: 0 <= i < |NewLines(lines, pairs)| ==> OneLine(NewLines(lines, pairs)[i])
  {
    hide OneLine, CleanKey, CleanValue, ParseLine, Setting;
    var env := PairsMap(pairs);
    PairsMapClean(pairs);
    MissingOneLine(pairs, Entries(lines).Keys);
    forall i | 0 <= i < |lines| ensures OneLine(Rewrite(lines[i], env)) {
      if Related(lines[i], env) {
        var key := ParseLine(lines[i]).value.0;
        ParseOfSetting(key, env[key]);
      }
    }
  }

  lemma ReadLinesOneLine(file: Option<string>)
    ensures forall i :: 0 <= i < |ReadLines(file)| ==> OneLine(ReadLines(file)[i])
  {
    if file.Some? { SplitFromOneLine("", Universal(file.value)); }
  }

  lemma BlankLineSetsNothing()
    ensures Entries([""]) == map[]
  {
    assert [""][..0] == [] && ParseLine("") == None;
  }

  /** Reading after writing gives the old settings overridden by the new pairs. */
  lemma RoundTrip(file: Option<string>, pairs: Pairs)
    requires Distinct(pairs) && AllClean(pairs)
    ensures Entries(ReadLines(Some(Written(file, pairs)))) == Entries(ReadLines(file)) + PairsMap(pairs)
  {
    hide ParseLine, OneLine, AllClean, NewLines;
    var lines := ReadLines(file);
    ReadLinesOneLine(file);
    NewLinesOneLine(lines, pairs);
    ReadOfWritten(NewLines(lines, pairs));
    NewLinesEntries(lines, pairs);
    BlankLineSetsNothing();
  }

  /** The round trip holds for exactly the clean pairs: others cannot even be represented in such a file. */
  lemma RoundTripIff(file: Option<string>, pairs: Pairs)
    requires Distinct(pairs)
    ensures Entries(ReadLines(Some(Written(file, pairs)))) == Entries(ReadLines(file)) + PairsMap(pairs)
            <==> AllClean(pairs)
  {
    hide CleanKey, CleanValue, ReadLines, Written, Entries;
    if AllClean(pairs) {
      RoundTrip(file, pairs);
    } else {
      var text := Some(Written(file, pairs));
      ReadLinesOneLine(text);
      EntriesClean(ReadLines(text));
      PairsMapOf(pairs);
      var i :| 0 <= i < |pairs| && !(CleanKey(pairs[i].0) && CleanValue(pairs[i].1));
      assert (Entries(ReadLines(file)) + PairsMap(pairs))[pairs[i].0] == pairs[i].1;
    }
  }

  /******* Everything else stays, and writing twice is writing once *******/

  function Unrelated(lines: seq<string>, env: Env): seq<string> {
    if lines == [] then []
    else Unrelated(lines[..|lines| - 1], env) + (if Related(lines[|lines| - 1], env) then [] else [lines[|lines| - 1]])
  }

  lemma {:induction false} UnrelatedConcat(a: seq<string>, b: seq<string>, env: Env)
    ensures Unrelated(a + b, env) == Unrelated(a, env) + Unrelated(b, env)
  {
    hide Related;
    if b == [] {
      assert a + b == a;
    } else {
      var n := |b| - 1;
      assert (a + b)[..|a + b| - 1] == a + b[..n];
      UnrelatedConcat(a, b[..n], env);
    }
  }

  /** A line that sets a key to the value being written. */
  predicate Current(line: string, env: Env) {
    Related(line, env) && line == Setting(ParseLine(line).value.0, env[ParseLine(line).value.0])
  }

  lemma SettingIsCurrent(key: string, env: Env)
    requires CleanEnv(env) && key in env
    ensures Current(Setting(key, env[key]), env)
  {
    ParseOfSetting(key, env[key]);
  }

  lemma {:induction false} MissingCurrent(pairs: Pairs, done: set<string>, env: Env)
    requires CleanEnv(env) && forall i :: 0 <= i < |pairs| ==> pairs[i].0 in env && env[pairs[i].0] == pairs[i].1
    ensures forall i :: 0 <= i < |Missing(pairs, done)| ==> Current(Missing(pairs, done)[i], env)
  {
    hide Current, CleanKey, CleanValue, Setting;
    if pairs != [] {
      MissingCurrent(pairs[..|pairs| - 1], done, env);
      SettingIsCurrent(pairs[|pairs| - 1].0, env);
    }
  }

  lemma {:induction false} CurrentIsRelated(lines: seq<string>, env: Env)
    requires forall i :: 0 <= i < |lines| ==> Current(lines[i], env)
    ensures Unrelated(lines, env) == [] && RewriteAll(lines, env) == lines
  {
    hide ParseLine, Setting;
    if lines != [] { CurrentIsRelated(lines[..|lines| - 1], env); }
  }

  lemma {:induction false} RewriteUnrelated(lines: seq<string>, env: Env)
    requires CleanEnv(env)
    ensures Unrelated(RewriteAll(lines, env), env) == Unrelated(lines, env)
  {
    hide ParseLine, Setting, CleanKey, CleanValue;
    if lines != [] {
      var n := |lines| - 1;
      RewriteUnrelated(lines[..n], env);
      assert RewriteAll(lines, env)[..n] == RewriteAll(lines[..n], env);
      if Related(lines[n], env) { SettingIsCurrent(ParseLine(lines[n]).value.0, env); }
    }
  }

  /**
   Writing works in place: read again, every old line is where it was, either as it was or, if it set a key
   that is being written, as the new setting of that key; new settings come after the old lines.
   */
  lemma WritesInPlace(file: Option<string>, pairs: Pairs, i: nat)
    requires Distinct(pairs) && AllClean(pairs) && i < |ReadLines(file)|
    ensures
      var lines, after := ReadLines(file), ReadLines(Some(Written(file, pairs)));
      && |lines| <= |after| && after[|lines|..] == Missing(pairs, Entries(lines).Keys)
      && ((forall j :: 0 <= j < |pairs| ==> !SetsKey(lines[i], pairs[j].0)) ==> after[i] == lines[i])
      && (forall j :: 0 <= j < |pairs| && SetsKey(lines[i], pairs[j].0) ==>
            after[i] == pairs[j].0 + "=" + pairs[j].1)
  {
    hide ReadLines, FileText, SetsKey, NewLines, Missing, Entries, OneLine, AllClean;
    var lines := ReadLines(file);
    ReadLinesOneLine(file);
    NewLinesOneLine(lines, pairs);
    ReadOfWritten(NewLines(lines, pairs));
    RewritesInPlace(lines, pairs, i);
  }

  lemma RewritesInPlace(lines: seq<string>, pairs: Pairs, i: nat)
    requires Distinct(pairs) && i < |lines|
    ensures
      var after := NewLines(lines, pairs);
      && |lines| <= |after| && after[|lines|..] == Missing(pairs, Entries(lines).Keys)
      && ((forall j :: 0 <= j < |pairs| ==> !SetsKey(lines[i], pairs[j].0)) ==> after[i] == lines[i])
      && (forall j :: 0 <= j < |pairs| && SetsKey(lines[i], pairs[j].0) ==>
            after[i] == pairs[j].0 + "=" + pairs[j].1)
  {
    hide ParseLine, Missing, Entries;
    PairsMapOf(pairs);
  }

  /** Comments, blank lines and other settings stay as they are, in order. */
  lemma UnrelatedLinesStay(lines: seq<string>, pairs: Pairs)
    requires Distinct(pairs) && AllClean(pairs)
    ensures Unrelated(NewLines(lines, pairs), PairsMap(pairs)) == Unrelated(lines, PairsMap(pairs))
  {
    hide AllClean, CleanEnv, Unrelated, RewriteAll, Missing, Current;
    var env := PairsMap(pairs);
    PairsMapClean(pairs);
    PairsMapOf(pairs);
    RewriteUnrelated(lines, env);
    MissingCurrent(pairs, Entries(lines).Keys, env);
    CurrentIsRelated(Missing(pairs, Entries(lines).Keys), env);
    UnrelatedConcat(RewriteAll(lines, env), Missing(pairs, Entries(lines).Keys), env);
  }

  lemma {:induction false} NothingMissing(pairs: Pairs, done: set<string>)
    requires forall i :: 0 <= i < |pairs| ==> pairs[i].0 in done
    ensures Missing(pairs, done) == []
  {
    if pairs != [] { NothingMissing(pairs[..|pairs| - 1], done); }
  }

  lemma RewriteTwice(lines: seq<string>, env: Env)
    requires CleanEnv(env)
    ensures RewriteAll(RewriteAll(lines, env), env) == RewriteAll(lines, env)
  {
    hide ParseLine, Setting, CleanKey, CleanValue;
    forall i | 0 <= i < |lines| ensures Rewrite(Rewrite(lines[i], env), env) == Rewrite(lines[i], env) {
      if Related(lines[i], env) { SettingIsCurrent(ParseLine(lines[i]).value.0, env); }
    }
  }

  lemma NewLinesTwice(lines: seq<string>, pairs: Pairs)
    requires Distinct(pairs) && AllClean(pairs)
    ensures NewLines(NewLines(lines, pairs), pairs) == NewLines(lines, pairs)
  {
    hide AllClean, CleanEnv, Missing, Current, Rewrite, Entries;
    var env, done := PairsMap(pairs), Entries(lines).Keys;
    var once := NewLines(lines, pairs);
    PairsMapClean(pairs);
    PairsMapOf(pairs);
    NewLinesEntries(lines, pairs);
    NothingMissing(pairs, Entries(once).Keys);
    RewriteTwice(lines, env);
    MissingCurrent(pairs, done, env);
    CurrentIsRelated(Missing(pairs, done), env);
    assert RewriteAll(once, env) == RewriteAll(RewriteAll(lines, env), env) + RewriteAll(Missing(pairs, done), env);
  }

  lemma WriteTwice(file: Option<string>, pairs: Pairs)
    requires Distinct(pairs) && AllClean(pairs)
    ensures Written(Some(Written(file, pairs)), pairs) == Written(file, pairs)
  {
    hide ParseLine, OneLine, AllClean, Rewrite;
    var lines := ReadLines(file);
    ReadLinesOneLine(file);
    NewLinesOneLine(lines, pairs);
    ReadOfWritten(NewLines(lines, pairs));
    NewLinesTwice(lines, pairs);
    if NewLines(lines, pairs) == [] {
      assert pairs == [] by { EmptyOnlyWithoutPairs(lines, pairs); }
      BlankLineSetsNothing();
      assert Rewrite("", map[]) == "" by { BlankUnrelated(); }
      assert NewLines([""], []) == [""];
      assert FileText([""]) == "\n" by { assert Unlines([""]) == "" + "\n" + Unlines([""][1..]); }
    }
  }

  lemma {:induction false} UnlinesEnds(lines: seq<string>)
    requires lines != []
    ensures Unlines(lines) != "" && Unlines(lines)[|Unlines(lines)| - 1] == '\n'
  {
    if |lines| == 1 {
      assert Unlines(lines[1..]) == "";
    } else {
      UnlinesEnds(lines[1..]);
    }
  }

  lemma FileTextEnds(lines: seq<string>)
    ensures FileText(lines) != "" && FileText(lines)[|FileText(lines)| - 1] == '\n'
  {
    if lines != [] { UnlinesEnds(lines); }
  }

  lemma BlankUnrelated()
    ensures Rewrite("", map[]) == ""
  {
  }

  lemma EmptyOnlyWithoutPairs(lines: seq<string>, pairs: Pairs)
    requires NewLines(lines, pairs) == []
    ensures pairs == []
  {
    assert |NewLines(lines, pairs)| == |lines| + |Missing(pairs, Entries(lines).Keys)|;
  }

  /******* The reader and the writer *******/

  method ReadEnvFile(file: Option<string>) returns (env: Env)
    ensures env == Entries(ReadLines(file))
  {
    hide ReadLines, Strip, Partition;
    env := map[];
    var lines := ReadLines(file);
    for i := 0 to |lines|
      invariant env == Entries(lines[..i])
    {
      assert lines[..i + 1][..i] == lines[..i];
      var line := Strip(lines[i]);
      if line != "" && line[0] != '#' {
        var parts := Partition(line, '=');
        if parts.Some? {
          env := env[Strip(parts.value.0) := Strip(parts.value.1)];
        }
      }
    }
    assert lines[..|lines|] == lines;
  }

  lemma NothingWritten(env: Env, done: set<string>)
    ensures Entries([]) == map[] && RewriteAll([], env) == [] && Missing([], done) == []
  {
  }

  lemma LineWritten(lines: seq<string>, i: nat, env: Env)
    requires i < |lines|
    ensures RewriteAll(lines[..i + 1], env) == RewriteAll(lines[..i], env) + [Rewrite(lines[i], env)]
    ensures Entries(lines[..i + 1]).Keys * env.Keys ==
            Entries(lines[..i]).Keys * env.Keys + if Related(lines[i], env) then {ParseLine(lines[i]).value.0} else {}
  {
    hide ParseLine, Setting;
    assert lines[..i + 1][..i] == lines[..i];
  }

  lemma PairWritten(pairs: Pairs, i: nat, done: set<string>)
    requires i < |pairs|
    ensures Missing(pairs[..i + 1], done) ==
            Missing(pairs[..i], done) + if pairs[i].0 in done then [] else [Setting(pairs[i].0, pairs[i].1)]
  {
    assert pairs[..i + 1][..i] == pairs[..i];
  }

  method WriteEnvFile(file: Option<string>, pairs: Pairs) returns (text: string)
    requires Distinct(pairs)
    ensures text == Written(file, pairs) && text != "" && text[|text| - 1] == '\n'
  {
    hide ReadLines, ParseLine, Setting, FileText, Entries, RewriteAll, Missing, PairsMap;
    var lines, env := ReadLines(file), PairsMap(pairs);
    var updated, newLines := {}, [];
    NothingWritten(env, Entries(lines).Keys);
    for i := 0 to |lines|
      invariant updated == Entries(lines[..i]).Keys * env.Keys
      invariant newLines == RewriteAll(lines[..i], env)
    {
      LineWritten(lines, i, env);
      var setting := ParseLine(lines[i]);
      if setting.Some? && setting.value.0 in env {
        var key := setting.value.0;
        newLines := newLines + [Setting(key, env[key])];
        updated := updated + {key};
      } else {
        newLines := newLines + [lines[i]];
      }
    }
    assert lines[..|lines|] == lines;
    ghost var rewritten := newLines;
    PairsMapOf(pairs);
    for i := 0 to |pairs|
      invariant newLines == rewritten + Missing(pairs[..i], Entries(lines).Keys)
    {
      PairWritten(pairs, i, Entries(lines).Keys);
      var (key, value) := pairs[i];
      if key !in updated {
        newLines := newLines + [Setting(key, value)];
      }
    }
    assert pairs[..|pairs|] == pairs;
    text := FileText(newLines);
    FileTextEnds(newLines);
  }
}
