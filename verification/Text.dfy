/** Python string operations shared by the model. */
module Text {
  import opened Options

  /** The characters `str.strip` removes. */
  predicate IsSpace(c: char) {
    || '\t' <= c <= '\r' || '\U{1C}' <= c <= ' '
    || c == '\U{85}' || c == '\U{A0}' || c == '\U{1680}' || '\U{2000}' <= c <= '\U{200A}'
    || c == '\U{2028}' || c == '\U{2029}' || c == '\U{202F}' || c == '\U{205F}' || c == '\U{3000}'
  }

  lemma SpacesAre(c: char)
    ensures IsSpace(c) <==>
            c in {'\t', '\n', '\U{B}', '\U{C}', '\r', '\U{1C}', '\U{1D}', '\U{1E}', '\U{1F}', ' ', '\U{85}', '\U{A0}',
                  '\U{1680}', '\U{2000}', '\U{2001}', '\U{2002}', '\U{2003}', '\U{2004}', '\U{2005}', '\U{2006}',
                  '\U{2007}', '\U{2008}', '\U{2009}', '\U{200A}', '\U{2028}', '\U{2029}', '\U{202F}', '\U{205F}',
                  '\U{3000}'}
  {
  }

  function LStrip(s: string): string {
    if s != [] && IsSpace(s[0]) then LStrip(s[1..]) else s
  }

  function RStrip(s: string): string {
    if s != [] && IsSpace(s[|s| - 1]) then RStrip(s[..|s| - 1]) else s
  }

  function Strip(s: string): string {
    RStrip(LStrip(s))
  }

  /** No whitespace at either end, so `strip` has nothing to do. */
  predicate Trimmed(s: string) {
    s == [] || (!IsSpace(s[0]) && !IsSpace(s[|s| - 1]))
  }

  lemma {:induction false} RStripEnds(s: string)
    ensures RStrip(s) <= s && (RStrip(s) == [] || !IsSpace(RStrip(s)[|RStrip(s)| - 1]))
  {
    if s != [] && IsSpace(s[|s| - 1]) { RStripEnds(s[..|s| - 1]); }
  }

  lemma {:induction false} LStripStarts(s: string)
    ensures LStrip(s) == [] || !IsSpace(LStrip(s)[0])
    ensures |LStrip(s)| <= |s| && LStrip(s) == s[|s| - |LStrip(s)|..]
  {
    if s != [] && IsSpace(s[0]) { LStripStarts(s[1..]); }
  }

  /** `strip` yields a trimmed piece of its argument, and leaves exactly trimmed text alone. */
  lemma StripTrims(s: string)
    ensures Trimmed(Strip(s))
    ensures Strip(s) == s <==> Trimmed(s)
    ensures forall c :: c in Strip(s) ==> c in s
  {
    LStripStarts(s);
    RStripEnds(LStrip(s));
    if Trimmed(s) && s != [] {
      assert LStrip(s) == s && RStrip(s) == s;
    }
  }

  predicate Blank(s: string) {
    forall i :: 0 <= i < |s| ==> IsSpace(s[i])
  }

  lemma {:induction false} LStripOf(p: string, t: string)
    requires Blank(p) && (t == [] || !IsSpace(t[0]))
    ensures LStrip(p + t) == t
  {
    if p == [] {
      assert p + t == t;
    } else {
      assert (p + t)[1..] == p[1..] + t;
      LStripOf(p[1..], t);
    }
  }

  lemma {:induction false} RStripOf(t: string, q: string)
    requires Blank(q) && (t == [] || !IsSpace(t[|t| - 1]))
    ensures RStrip(t + q) == t
  {
    if q == [] {
      assert t + q == t;
    } else {
      assert (t + q)[..|t + q| - 1] == t + q[..|q| - 1];
      RStripOf(t, q[..|q| - 1]);
    }
  }

  /** `strip` takes off the whitespace around a trimmed text and nothing else. */
  lemma StripOf(p: string, t: string, q: string)
    requires Blank(p) && Trimmed(t) && Blank(q)
    ensures Strip(p + t + q) == t
  {
    hide IsSpace;
    if t == [] {
      assert p + t + q == p + q + [] && Blank(p + q);
      LStripOf(p + q, []);
    } else {
      assert p + t + q == p + (t + q);
      LStripOf(p, t + q);
      RStripOf(t, q);
    }
  }

  lemma {:induction false} RStripRest(s: string)
    ensures RStrip(s) <= s && Blank(s[|RStrip(s)|..])
  {
    hide IsSpace;
    if s != [] && IsSpace(s[|s| - 1]) { RStripRest(s[..|s| - 1]); }
  }

  lemma {:induction false} LStripRest(s: string)
    ensures |LStrip(s)| <= |s| && s == s[..|s| - |LStrip(s)|] + LStrip(s) && Blank(s[..|s| - |LStrip(s)|])
  {
    hide IsSpace;
    if s != [] && IsSpace(s[0]) {
      LStripRest(s[1..]);
      var n := |s| - |LStrip(s)|;
      assert s[..n] == [s[0]] + s[1..][..n - 1];
    }
  }

  /** What `strip` takes off is whitespace. */
  lemma StripRest(s: string) returns (p: string, q: string)
    ensures Blank(p) && Blank(q) && s == p + Strip(s) + q
  {
    hide IsSpace, Blank;
    LStripRest(s);
    RStripRest(LStrip(s));
    p, q := s[..|s| - |LStrip(s)|], LStrip(s)[|Strip(s)|..];
    assert LStrip(s) == Strip(s) + q;
  }

  lemma StripPads(p: string, s: string, q: string)
    requires Blank(p) && Blank(q)
    ensures Strip(p + s + q) == Strip(s)
  {
    hide IsSpace;
    var a, b := StripRest(s);
    StripTrims(s);
    assert p + s + q == (p + a) + Strip(s) + (b + q);
    StripOf(p + a, Strip(s), b + q);
  }

  /** The text before and after the first `c`, or `None` without one. */
  function Partition(s: string, c: char): (r: Option<(string, string)>)
    ensures r.Some? ==> |r.value.0| + 1 + |r.value.1| == |s|
  {
    if s == [] then None
    else if s[0] == c then Some(([], s[1..]))
    else match Partition(s[1..], c)
      case None => None
      case Some(parts) => Some(([s[0]] + parts.0, parts.1))
  }

  lemma {:induction false} PartitionSplits(s: string, c: char)
    ensures match Partition(s, c)
            case None => c !in s
            case Some(parts) => s == parts.0 + [c] + parts.1 && c !in parts.0
  {
    if s != [] && s[0] != c {
      PartitionSplits(s[1..], c);
      assert s == [s[0]] + s[1..];
    }
  }

  lemma {:induction false} PartitionOf(a: string, c: char, b: string)
    requires c !in a
    ensures Partition(a + [c] + b, c) == Some((a, b))
  {
    var s := a + [c] + b;
    if a == [] {
      assert s[1..] == b;
    } else {
      assert s[1..] == a[1..] + [c] + b;
      PartitionOf(a[1..], c, b);
      assert a == [a[0]] + a[1..];
    }
  }

  predicate EndsWith(s: string, t: string) {
    |t| <= |s| && s[|s| - |t|..] == t
  }
}
