/** Character-level operations the collectors and the pipeline rely on:
    whitespace as each runtime defines it, stripping, collapsing whitespace
    runs, joining and splitting, substring search and decimal rendering. */
module Strings {
  import Seqs

  /** The two runtimes whose whitespace rules differ. */
  datatype Lang = Python | JavaScript

  /** Python's `str.isspace` (also what `\s` and `str.strip()` use) and the
      characters JavaScript's `String.prototype.trim` removes. */
  predicate IsSpace(lang: Lang, c: char) {
    match lang
    case Python =>
      || c == ' ' || ('\t' <= c <= '\r') || ('\U{1C}' <= c <= '\U{1F}')
      || c == '\U{85}' || c == '\U{A0}' || c == '\U{1680}'
      || ('\U{2000}' <= c <= '\U{200A}') || c == '\U{2028}' || c == '\U{2029}'
      || c == '\U{202F}' || c == '\U{205F}' || c == '\U{3000}'
    case JavaScript =>
      || c == ' ' || ('\t' <= c <= '\r') || c == '\U{A0}' || c == '\U{1680}'
      || ('\U{2000}' <= c <= '\U{200A}') || c == '\U{2028}' || c == '\U{2029}'
      || c == '\U{202F}' || c == '\U{205F}' || c == '\U{3000}' || c == '\U{FEFF}'
  }

  /** Every character is whitespace (the empty string included). */
  predicate IsBlank(lang: Lang, s: string) {
    forall k | 0 <= k < |s| :: IsSpace(lang, s[k])
  }

  /** The characters of `s` that are not whitespace, in order. */
  function Visible(lang: Lang, s: string): (r: string)
    ensures forall k | 0 <= k < |r| :: !IsSpace(lang, r[k])
  {
    if s == [] then []
    else if IsSpace(lang, s[0]) then Visible(lang, s[1..])
    else [s[0]] + Visible(lang, s[1..])
  }

  lemma {:induction false} VisibleAppend(lang: Lang, a: string, b: string)
    ensures Visible(lang, a + b) == Visible(lang, a) + Visible(lang, b)
  {
    if a == [] {
      assert a + b == b;
    } else {
      assert (a + b)[1..] == a[1..] + b;
      VisibleAppend(lang, a[1..], b);
    }
  }

  lemma {:induction false} VisibleOfBlank(lang: Lang, s: string)
    requires IsBlank(lang, s)
    ensures Visible(lang, s) == []
  {
    if s != [] {
      VisibleOfBlank(lang, s[1..]);
    }
  }

  /** `s` without its leading whitespace. */
  function StripStart(lang: Lang, s: string): (r: string)
    ensures |r| <= |s| && r == s[|s| - |r|..]
    ensures s != [] && IsSpace(lang, s[0]) ==> |r| < |s|
    ensures r == [] || !IsSpace(lang, r[0])
  {
    if s != [] && IsSpace(lang, s[0]) then
      var r := StripStart(lang, s[1..]);
      assert s[1..][|s| - 1 - |r|..] == s[|s| - |r|..];
      r
    else s
  }

  /** What StripStart removes is whitespace. */
  lemma {:induction false} StripStartSkipsBlank(lang: Lang, s: string)
    ensures forall k | 0 <= k < |s| - |StripStart(lang, s)| :: IsSpace(lang, s[k])
  {
    if s != [] && IsSpace(lang, s[0]) {
      StripStartSkipsBlank(lang, s[1..]);
      forall k | 1 <= k < |s| - |StripStart(lang, s)|
        ensures IsSpace(lang, s[k])
      {
        assert s[k] == s[1..][k - 1];
      }
    }
  }

  /** `s` without its trailing whitespace. */
  function StripEnd(lang: Lang, s: string): (r: string)
    ensures |r| <= |s| && r == s[..|r|]
    ensures r == [] || !IsSpace(lang, r[|r| - 1])
  {
    if s != [] && IsSpace(lang, s[|s| - 1]) then StripEnd(lang, s[..|s| - 1]) else s
  }

  /** What StripEnd removes is whitespace. */
  lemma {:induction false} StripEndSkipsBlank(lang: Lang, s: string)
    ensures forall k | |StripEnd(lang, s)| <= k < |s| :: IsSpace(lang, s[k])
  {
    if s != [] && IsSpace(lang, s[|s| - 1]) {
      StripEndSkipsBlank(lang, s[..|s| - 1]);
      forall k | |StripEnd(lang, s)| <= k < |s| - 1
        ensures IsSpace(lang, s[k])
      {
        assert s[k] == s[..|s| - 1][k];
      }
    }
  }

  /** Python's `str.strip()` and JavaScript's `trim()`: a middle part of `s`
      that neither starts nor ends with whitespace, empty exactly when `s` is
      blank, and `s` itself when `s` has no whitespace at either end. */
  function Strip(lang: Lang, s: string): (r: string)
    ensures r == [] || (!IsSpace(lang, r[0]) && !IsSpace(lang, r[|r| - 1]))
    ensures r == [] <==> IsBlank(lang, s)
    ensures (s == [] || (!IsSpace(lang, s[0]) && !IsSpace(lang, s[|s| - 1]))) ==> r == s
  {
    var t := StripStart(lang, s);
    var r := StripEnd(lang, t);
    StripBlank(lang, s, t, r);
    r
  }

  /** Stripping removes only whitespace: the visible characters stay, in
      order. */
  lemma StripKeepsVisible(lang: Lang, s: string)
    ensures Visible(lang, Strip(lang, s)) == Visible(lang, s)
  {
    StripVisible(lang, s, StripStart(lang, s), Strip(lang, s));
  }

  lemma StripBlank(lang: Lang, s: string, t: string, r: string)
    requires t == StripStart(lang, s) && r == StripEnd(lang, t)
    ensures r == [] <==> IsBlank(lang, s)
  {
    if IsBlank(lang, s) {
      StripStartOfBlank(lang, s);
    }
    if r == [] {
      EmptyStripIsBlank(lang, s, t);
    }
  }

  lemma EmptyStripIsBlank(lang: Lang, s: string, t: string)
    requires t == StripStart(lang, s) && StripEnd(lang, t) == []
    ensures IsBlank(lang, s)
  {
    assert t == [] by {
      StripEndSkipsBlank(lang, t);
    }
    StripStartSkipsBlank(lang, s);
  }

  lemma {:induction false} StripStartOfBlank(lang: Lang, s: string)
    requires IsBlank(lang, s)
    ensures StripStart(lang, s) == []
  {
    if s != [] {
      StripStartOfBlank(lang, s[1..]);
    }
  }

  lemma {:induction false} VisibleStripStart(lang: Lang, s: string)
    ensures Visible(lang, StripStart(lang, s)) == Visible(lang, s)
  {
    if s != [] && IsSpace(lang, s[0]) {
      VisibleStripStart(lang, s[1..]);
    }
  }

  lemma {:induction false} VisibleStripEnd(lang: Lang, s: string)
    ensures Visible(lang, StripEnd(lang, s)) == Visible(lang, s)
  {
    if s != [] && IsSpace(lang, s[|s| - 1]) {
      var init := s[..|s| - 1];
      VisibleStripEnd(lang, init);
      assert s == init + [s[|s| - 1]];
      VisibleAppend(lang, init, [s[|s| - 1]]);
      assert Visible(lang, [s[|s| - 1]]) == [];
    }
  }

  lemma StripVisible(lang: Lang, s: string, t: string, r: string)
    requires t == StripStart(lang, s) && r == StripEnd(lang, t)
    ensures Visible(lang, r) == Visible(lang, s)
  {
    VisibleStripStart(lang, s);
    VisibleStripEnd(lang, t);
  }

  /** `re.sub(r'\s+', ' ', s)`: every maximal run of whitespace becomes one space. */
  function CollapseSpaces(s: string): (r: string)
    decreases |s|
  {
    if s == [] then []
    else if IsSpace(Python, s[0]) then
      " " + CollapseSpaces(StripStart(Python, s))
    else [s[0]] + CollapseSpaces(s[1..])
  }

  /** The only whitespace is the plain space, never two in a row, none at
      either end: the shape the pipeline's cleaning step produces. */
  predicate Normalised(s: string) {
    OnlyPlainSpaces(s) && NoDoubleSpace(s) && (s == [] || (s[0] != ' ' && s[|s| - 1] != ' '))
  }

  /** Whitespace other than the plain space never survives collapsing. */
  predicate OnlyPlainSpaces(s: string) {
    forall k | 0 <= k < |s| :: IsSpace(Python, s[k]) ==> s[k] == ' '
  }

  /** No two spaces in a row. */
  predicate NoDoubleSpace(s: string) {
    forall k | 0 <= k < |s| - 1 :: s[k] == ' ' ==> s[k + 1] != ' '
  }

  lemma {:induction false} CollapseStartsVisible(s: string)
    requires s != [] && !IsSpace(Python, s[0])
    ensures CollapseSpaces(s) == [s[0]] + CollapseSpaces(s[1..])
  {
  }

  lemma {:induction false} CollapseShape(s: string)
    ensures OnlyPlainSpaces(CollapseSpaces(s))
    ensures NoDoubleSpace(CollapseSpaces(s))
    decreases |s|
  {
    if s == [] {
    } else if IsSpace(Python, s[0]) {
      var t := StripStart(Python, s);
      CollapseShape(t);
      var rt := CollapseSpaces(t);
      assert CollapseSpaces(s) == " " + rt;
      if t != [] {
        CollapseStartsVisible(t);
      }
    } else {
      CollapseShape(s[1..]);
    }
  }

  lemma {:induction false} CollapseVisible(s: string)
    ensures Visible(Python, CollapseSpaces(s)) == Visible(Python, s)
    decreases |s|
  {
    if s == [] {
    } else if IsSpace(Python, s[0]) {
      var t := StripStart(Python, s);
      CollapseVisible(t);
      VisibleStripStart(Python, s);
      var rt := CollapseSpaces(t);
      assert (" " + rt)[1..] == rt;
      assert Visible(Python, " " + rt) == Visible(Python, rt);
    } else {
      CollapseVisible(s[1..]);
      var rt := CollapseSpaces(s[1..]);
      assert ([s[0]] + rt)[1..] == rt;
      assert Visible(Python, [s[0]] + rt) == [s[0]] + Visible(Python, rt);
    }
  }

  /** The cleaning step of the Gradio pipeline, `re.sub(r'\s+', ' ', s).strip()`. */
  function Clean(s: string): (r: string) {
    Strip(Python, CollapseSpaces(s))
  }

  /** Cleaning yields a normalised text with exactly the visible characters
      of the input, in order. */
  lemma CleanNormalises(s: string)
    ensures Normalised(Clean(s))
    ensures Visible(Python, Clean(s)) == Visible(Python, s)
  {
    CleanShape(s);
    CollapseVisible(s);
    StripKeepsVisible(Python, CollapseSpaces(s));
  }

  lemma CleanShape(s: string)
    ensures Normalised(Clean(s))
  {
    CollapseShape(s);
    StripNormalised(CollapseSpaces(s));
  }

  lemma StripNormalised(c: string)
    requires OnlyPlainSpaces(c) && NoDoubleSpace(c)
    ensures Normalised(Strip(Python, c))
  {
    var i := StripSlice(Python, c);
    NormalisedSlice(c, i, Strip(Python, c));
  }

  /** A slice of a collapsed text with no whitespace at either end is
      normalised. */
  lemma NormalisedSlice(c: string, i: nat, r: string)
    requires OnlyPlainSpaces(c) && NoDoubleSpace(c)
    requires i + |r| <= |c| && r == c[i..i + |r|]
    requires r == [] || (!IsSpace(Python, r[0]) && !IsSpace(Python, r[|r| - 1]))
    ensures Normalised(r)
  {
    SliceKeepsShape(c, i, i + |r|);
    assert IsSpace(Python, ' ');
  }

  /** The stripped text is a slice of the input; `i` is where it starts. */
  lemma StripSlice(lang: Lang, s: string) returns (i: nat)
    ensures i + |Strip(lang, s)| <= |s| && Strip(lang, s) == s[i..i + |Strip(lang, s)|]
  {
    var t := StripStart(lang, s);
    var r := StripEnd(lang, t);
    i := |s| - |t|;
    assert r == t[..|r|];
    assert t == s[i..];
  }

  lemma SliceKeepsShape(c: string, i: nat, j: nat)
    requires i <= j <= |c|
    requires OnlyPlainSpaces(c) && NoDoubleSpace(c)
    ensures OnlyPlainSpaces(c[i..j]) && NoDoubleSpace(c[i..j])
  {
    var r := c[i..j];
    assert forall k | 0 <= k < |r| :: r[k] == c[k + i];
    forall k | 0 <= k < |r| - 1
      ensures r[k] == ' ' ==> r[k + 1] != ' '
    {
      assert r[k] == c[k + i] && r[k + 1] == c[k + 1 + i];
    }
  }

  /** A normalised text is left as it is: together with CleanNormalises this
      makes cleaning idempotent. */
  lemma {:induction false} CleanKeepsNormalised(s: string)
    requires Normalised(s)
    ensures Clean(s) == s
  {
    CollapseIdentity(s);
  }

  lemma {:induction false} CollapseIdentity(s: string)
    requires OnlyPlainSpaces(s) && NoDoubleSpace(s)
    ensures CollapseSpaces(s) == s
    decreases |s|
  {
    if s != [] {
      SliceKeepsShape(s, 1, |s|);
      CollapseIdentity(s[1..]);
      if IsSpace(Python, s[0]) {
        CollapseSingleSpace(s);
      } else {
        CollapseStartsVisible(s);
      }
    }
  }

  /** A lone plain space is kept as it is. */
  lemma CollapseSingleSpace(s: string)
    requires s != [] && IsSpace(Python, s[0])
    requires OnlyPlainSpaces(s) && NoDoubleSpace(s)
    ensures CollapseSpaces(s) == [s[0]] + CollapseSpaces(s[1..])
  {
    var rest := s[1..];
    assert s[0] == ' ';
    assert rest == [] || !IsSpace(Python, rest[0]) by {
      if rest != [] {
        assert s[1] == rest[0];
      }
    }
    assert StripStart(Python, rest) == rest;
    assert StripStart(Python, s) == rest;
  }

  lemma CleanIdempotent(s: string)
    ensures Clean(Clean(s)) == Clean(s)
  {
    CleanNormalises(s);
    CleanKeepsNormalised(Clean(s));
  }

  /** A whitespace run between two visible characters becomes exactly one
      space: this is what makes the blank lines that join the scraped
      pieces a single space in the analysed text. */
  lemma CollapseRun(a: string, w: string, b: string)
    requires a == [] || !IsSpace(Python, a[|a| - 1])
    requires w != [] && IsBlank(Python, w)
    requires b == [] || !IsSpace(Python, b[0])
    ensures CollapseSpaces(a + w + b) == CollapseSpaces(a) + " " + CollapseSpaces(b)
  {
    Seqs.AppendAssoc(a, w, b);
    CollapseAppend(a, w + b);
    CollapseBlankThen(w, b);
    Seqs.AppendAssoc(CollapseSpaces(a), " ", CollapseSpaces(b));
  }

  /** Cutting after a visible character does not split a whitespace run. */
  lemma {:induction false} CollapseAppend(a: string, t: string)
    requires a == [] || !IsSpace(Python, a[|a| - 1])
    ensures CollapseSpaces(a + t) == CollapseSpaces(a) + CollapseSpaces(t)
    decreases |a|
  {
    if a == [] {
      assert a + t == t;
      assert CollapseSpaces(a) == [];
      assert [] + CollapseSpaces(t) == CollapseSpaces(t);
    } else if IsSpace(Python, a[0]) {
      CollapseAppendSpace(a, t);
    } else {
      CollapseAppendVisible(a, t);
    }
  }

  lemma CollapseAppendVisible(a: string, t: string)
    requires a != [] && !IsSpace(Python, a[0]) && !IsSpace(Python, a[|a| - 1])
    ensures CollapseSpaces(a + t) == CollapseSpaces(a) + CollapseSpaces(t)
    decreases |a|, 0
  {
    var rest := a[1..];
    assert (a + t)[1..] == rest + t;
    assert rest == [] || rest[|rest| - 1] == a[|a| - 1];
    CollapseAppend(rest, t);
    CollapseStartsVisible(a);
    CollapseStartsVisible(a + t);
    Seqs.AppendAssoc([a[0]], CollapseSpaces(rest), CollapseSpaces(t));
  }

  lemma CollapseAppendSpace(a: string, t: string)
    requires a != [] && IsSpace(Python, a[0]) && !IsSpace(Python, a[|a| - 1])
    ensures CollapseSpaces(a + t) == CollapseSpaces(a) + CollapseSpaces(t)
    decreases |a|, 0
  {
    var u := StripStart(Python, a);
    StripStartAppend(a, t, |a| - 1);
    assert u != [] && u[|u| - 1] == a[|a| - 1] by {
      VisibleEndKept(a);
    }
    CollapseAppend(u, t);
    assert (a + t)[0] == a[0];
    Seqs.AppendAssoc(" ", CollapseSpaces(u), CollapseSpaces(t));
  }

  /** A text ending with a visible character keeps that character when its
      leading whitespace is stripped. */
  lemma VisibleEndKept(a: string)
    requires a != [] && !IsSpace(Python, a[|a| - 1])
    ensures var u := StripStart(Python, a); u != [] && u[|u| - 1] == a[|a| - 1]
  {
    StripStartSkipsBlank(Python, a);
  }

  /** Leading whitespace ends inside a text with a visible character (at
      `k`). */
  lemma {:induction false} StripStartAppend(a: string, t: string, k: nat)
    requires k < |a| && !IsSpace(Python, a[k])
    ensures StripStart(Python, a + t) == StripStart(Python, a) + t
  {
    assert (a + t)[0] == a[0];
    if IsSpace(Python, a[0]) {
      assert (a + t)[1..] == a[1..] + t;
      assert a[1..][k - 1] == a[k];
      StripStartAppend(a[1..], t, k - 1);
    }
  }

  /** Trailing whitespace starts inside a text with a visible character (at
      `k`). */
  lemma {:induction false} StripEndAppend(t: string, b: string, k: nat)
    requires k < |b| && !IsSpace(Python, b[k])
    ensures StripEnd(Python, t + b) == t + StripEnd(Python, b)
    decreases |b|
  {
    var s := t + b;
    assert s[|s| - 1] == b[|b| - 1];
    if IsSpace(Python, b[|b| - 1]) {
      var init := b[..|b| - 1];
      assert s[..|s| - 1] == t + init;
      assert init[k] == b[k];
      StripEndAppend(t, init, k);
      assert StripEnd(Python, s) == StripEnd(Python, t + init);
      assert StripEnd(Python, b) == StripEnd(Python, init);
    } else {
      assert StripEnd(Python, s) == s;
    }
  }

  /** A whitespace run in front of a visible character collapses to one
      space. */
  lemma CollapseBlankThen(w: string, b: string)
    requires w != [] && IsBlank(Python, w)
    requires b == [] || !IsSpace(Python, b[0])
    ensures CollapseSpaces(w + b) == " " + CollapseSpaces(b)
  {
    StripStartBlank(w, b);
    assert (w + b)[0] == w[0];
  }

  lemma {:induction false} StripStartBlank(w: string, b: string)
    requires IsBlank(Python, w)
    requires b == [] || !IsSpace(Python, b[0])
    ensures StripStart(Python, w + b) == b
  {
    if w == [] {
      assert w + b == b;
    } else {
      assert (w + b)[1..] == w[1..] + b;
      assert (w + b)[0] == w[0];
      StripStartBlank(w[1..], b);
    }
  }

  /** A collapsed text keeps a visible last character. */
  lemma {:induction false} CollapseEndsVisible(a: string)
    requires a != [] && !IsSpace(Python, a[|a| - 1])
    ensures var c := CollapseSpaces(a); c != [] && c[|c| - 1] == a[|a| - 1]
    decreases |a|
  {
    if IsSpace(Python, a[0]) {
      var u := StripStart(Python, a);
      VisibleEndKept(a);
      CollapseEndsVisible(u);
      LastOfConcat(" ", CollapseSpaces(u));
    } else {
      var rest := a[1..];
      CollapseStartsVisible(a);
      if rest == [] {
        assert CollapseSpaces(a) == [a[0]];
      } else {
        assert rest[|rest| - 1] == a[|a| - 1];
        CollapseEndsVisible(rest);
        LastOfConcat([a[0]], CollapseSpaces(rest));
      }
    }
  }

  lemma LastOfConcat(x: string, y: string)
    requires y != []
    ensures (x + y)[|x + y| - 1] == y[|y| - 1]
  {
  }

  /** The cleaning step joins two texts separated by a whitespace run with
      one space: `Clean(a + w + b)` is `Clean(a) + " " + Clean(b)`. */
  lemma CleanRun(a: string, w: string, b: string)
    requires a != [] && !IsSpace(Python, a[|a| - 1])
    requires w != [] && IsBlank(Python, w)
    requires b != [] && !IsSpace(Python, b[0])
    ensures Clean(a + w + b) == Clean(a) + " " + Clean(b)
  {
    CollapseRun(a, w, b);
    var ca, cb := CollapseSpaces(a), CollapseSpaces(b);
    CollapseEndsVisible(a);
    CollapseStartsVisible(b);
    CleanJoin(ca, cb);
  }

  lemma CleanJoin(ca: string, cb: string)
    requires ca != [] && !IsSpace(Python, ca[|ca| - 1])
    requires cb != [] && !IsSpace(Python, cb[0])
    ensures Strip(Python, ca + " " + cb) == Strip(Python, ca) + " " + Strip(Python, cb)
  {
    var sa := StripStart(Python, ca);
    Seqs.AppendAssoc(ca, " ", cb);
    StripStartAppend(ca, " " + cb, |ca| - 1);
    Seqs.AppendAssoc(sa, " ", cb);
    StripEndAppend(sa + " ", cb, 0);
    VisibleEndKept(ca);
    assert StripEnd(Python, sa) == sa;
    assert StripStart(Python, cb) == cb;
  }

  /** Python's `sep.join(xs)` and JavaScript's `xs.join(sep)`. */
  function Join(xs: seq<string>, sep: string): string {
    if |xs| == 0 then ""
    else if |xs| == 1 then xs[0]
    else xs[0] + sep + Join(xs[1..], sep)
  }

  /** A joined text starts with its first piece. */
  lemma JoinStartsWithFirst(xs: seq<string>, sep: string)
    requires |xs| >= 1
    ensures xs[0] <= Join(xs, sep)
  {
    if |xs| > 1 {
      assert Join(xs, sep) == xs[0] + (sep + Join(xs[1..], sep));
    }
  }

  /** Python's `s.split(d)` for a one-character separator. */
  function Split(s: string, d: char): (r: seq<string>)
    ensures |r| >= 1
  {
    if s == [] then [""]
    else
      var rest := Split(s[1..], d);
      if s[0] == d then [""] + rest else [[s[0]] + rest[0]] + rest[1..]
  }

  lemma {:induction false} SplitNoSeparator(a: string, d: char)
    requires d !in a
    ensures Split(a, d) == [a]
  {
    if a != [] {
      SplitNoSeparator(a[1..], d);
      assert a == [a[0]] + a[1..];
    }
  }

  lemma {:induction false} SplitAfterFirst(a: string, d: char, b: string)
    requires d !in a
    ensures Split(a + [d] + b, d) == [a] + Split(b, d)
  {
    if a == [] {
      assert (a + [d] + b)[1..] == b;
    } else {
      assert (a + [d] + b)[1..] == a[1..] + [d] + b;
      SplitAfterFirst(a[1..], d, b);
      assert a == [a[0]] + a[1..];
    }
  }

  /** Splitting on the separator undoes joining on it, as long as no piece
      contains the separator. */
  lemma {:induction false} SplitJoin(xs: seq<string>, d: char)
    requires |xs| >= 1
    requires forall i | 0 <= i < |xs| :: d !in xs[i]
    ensures Split(Join(xs, [d]), d) == xs
  {
    if |xs| == 1 {
      SplitNoSeparator(xs[0], d);
    } else {
      SplitJoin(xs[1..], d);
      SplitAfterFirst(xs[0], d, Join(xs[1..], [d]));
      assert xs == [xs[0]] + xs[1..];
    }
  }

  /** `t` occurs somewhere in `s` (Python's `t in s`, JavaScript's `s.includes(t)`). */
  predicate Contains(s: string, t: string) {
    t <= s || (s != [] && Contains(s[1..], t))
  }

  lemma {:induction false} ContainsAfter(p: string, s: string, t: string)
    requires Contains(s, t)
    ensures Contains(p + s, t)
  {
    if p == [] {
      assert p + s == s;
    } else {
      ContainsAfter(p[1..], s, t);
      assert (p + s)[1..] == p[1..] + s;
    }
  }

  lemma ContainsBetween(p: string, t: string, q: string)
    ensures Contains(p + t + q, t)
  {
    assert t <= t + q;
    ContainsAfter(p, t + q, t);
    assert p + t + q == p + (t + q);
  }

  /** Every piece of a joined text occurs in it. */
  lemma {:induction false} JoinContains(xs: seq<string>, sep: string, i: nat)
    requires i < |xs|
    ensures Contains(Join(xs, sep), xs[i])
  {
    if |xs| == 1 {
      assert xs[i] <= Join(xs, sep);
    } else if i == 0 {
      assert xs[0] <= xs[0] + (sep + Join(xs[1..], sep));
      assert Join(xs, sep) == xs[0] + (sep + Join(xs[1..], sep));
    } else {
      JoinContains(xs[1..], sep, i - 1);
      ContainsAfter(xs[0] + sep, Join(xs[1..], sep), xs[i]);
    }
  }

  /** The text after the first `c`, Python's `s.split(c, 1)[1]` (which raises
      when `c` does not occur, hence the precondition). */
  function AfterFirst(s: string, c: char): (r: string)
    requires c in s
    ensures |r| < |s| && r == s[|s| - |r|..]
  {
    if s[0] == c then s[1..] else AfterFirst(s[1..], c)
  }

  lemma {:induction false} AfterFirstPrefix(p: string, c: char, rest: string)
    requires c !in p
    ensures c in p + [c] + rest
    ensures AfterFirst(p + [c] + rest, c) == rest
  {
    var s := p + [c] + rest;
    assert s[|p|] == c;
    if p != [] {
      assert s[1..] == p[1..] + [c] + rest;
      AfterFirstPrefix(p[1..], c, rest);
    } else {
      assert s[1..] == rest;
    }
  }

  function DigitChar(d: nat): char
    requires d < 10
  {
    "0123456789"[d]
  }

  /** Decimal digits of `n` without leading zeros. */
  function NatToString(n: nat): (r: string)
    ensures |r| >= 1
  {
    if n < 10 then [DigitChar(n)] else NatToString(n / 10) + [DigitChar(n % 10)]
  }

  /** Python's `str(i)` and JavaScript's `String(i)` for an integer. */
  function IntToString(i: int): (r: string)
    ensures |r| >= 1
  {
    if i < 0 then "-" + NatToString(-i) else NatToString(i)
  }
}
