/** Line-ending detection and conversion, proved against splitting a text into lines. */
module LineEndings {
  import opened Strings

  const CR := '\r'
  const LF := '\n'

  datatype LineEnding = Lf | Crlf

  /** `str::find`: the first occurrence, or -1. */
  function Find(s: string, pat: string): (i: int)
    requires pat != ""
    ensures -1 <= i <= |s| - |pat| || i == -1
    ensures 0 <= i ==> s[i..i + |pat|] == pat
  {
    if |s| < |pat| then -1
    else if s[..|pat|] == pat then 0
    else
      var i := Find(s[1..], pat);
      assert 0 <= i ==> s[1..][i..i + |pat|] == s[i + 1..i + 1 + |pat|];
      if i < 0 then -1 else i + 1
  }

  function Detect(text: string): LineEnding {
    var crlf, lf := Find(text, [CR, LF]), Find(text, [LF]);
    if 0 <= crlf && 0 <= lf && crlf <= lf then Crlf
    else if 0 <= crlf && lf < 0 then Crlf
    else Lf
  }

  function Strip(text: string): string { Replace(Replace(text, [CR, LF], [LF]), [CR], [LF]) }

  function Apply(e: LineEnding, text: string): string {
    match e
    case Lf => Strip(text)
    case Crlf => Replace(Strip(text), [LF], [CR, LF])
  }

  // ---- The reference: lines -----------------------------------------------

  predicate IsBreak(c: char) { c == CR || c == LF }

  predicate Clean(l: string) { forall i :: 0 <= i < |l| ==> !IsBreak(l[i]) }

  predicate AllClean(ls: seq<string>) { forall i :: 0 <= i < |ls| ==> Clean(ls[i]) }

  /** Splits at every CR LF pair, lone CR and lone LF. */
  function Lines(s: string): (ls: seq<string>)
    ensures ls != []
    ensures AllClean(ls)
  {
    if s == "" then [""]
    else if |s| >= 2 && s[0] == CR && s[1] == LF then [""] + Lines(s[2..])
    else if IsBreak(s[0]) then [""] + Lines(s[1..])
    else
      var ls := Lines(s[1..]);
      [[s[0]] + ls[0]] + ls[1..]
  }

  function Join(ls: seq<string>, sep: string): string
    requires ls != []
  {
    if |ls| == 1 then ls[0] else ls[0] + sep + Join(ls[1..], sep)
  }

  function Terminator(e: LineEnding): string {
    match e case Lf => [LF] case Crlf => [CR, LF]
  }

  /** A character in front of the first line. */
  lemma {:induction false} JoinCons(c: char, ls: seq<string>, sep: string)
    requires ls != []
    ensures Join([[c] + ls[0]] + ls[1..], sep) == [c] + Join(ls, sep)
  {
    if |ls| > 1 {
      assert ([[c] + ls[0]] + ls[1..])[1..] == ls[1..];
    }
  }

  lemma {:induction false} JoinBreak(ls: seq<string>, sep: string)
    requires ls != []
    ensures Join([""] + ls, sep) == sep + Join(ls, sep)
  {
    assert ([""] + ls)[1..] == ls;
    assert "" + sep == sep;
  }

  lemma {:induction false} StripIsJoin(s: string)
    ensures Strip(s) == Join(Lines(s), [LF])
  {
    if s == "" {
    } else if |s| >= 2 && s[0] == CR && s[1] == LF {
      assert s[..2] == [CR, LF];
      StripStep(LF, Replace(s[2..], [CR, LF], [LF]));
      StripIsJoin(s[2..]);
      JoinBreak(Lines(s[2..]), [LF]);
    } else {
      PairStep(s);
      StripStep(s[0], Replace(s[1..], [CR, LF], [LF]));
      StripIsJoin(s[1..]);
      if IsBreak(s[0]) {
        JoinBreak(Lines(s[1..]), [LF]);
      } else {
        JoinCons(s[0], Lines(s[1..]), [LF]);
      }
    }
  }

  /** Where no CR LF pair starts, the first character is kept. */
  lemma {:induction false} PairStep(s: string)
    requires s != "" && !(|s| >= 2 && s[0] == CR && s[1] == LF)
    ensures Replace(s, [CR, LF], [LF]) == [s[0]] + Replace(s[1..], [CR, LF], [LF])
  {
    if |s| == 1 {
      assert s == [s[0]] + s[1..];
    } else {
      assert s[..2][0] == s[0] && s[..2][1] == s[1];
    }
  }

  lemma {:induction false} StripStep(c: char, s: string)
    ensures Replace([c] + s, [CR], [LF]) == [if c == CR then LF else c] + Replace(s, [CR], [LF])
  {
    assert ([c] + s)[..1] == [c] && ([c] + s)[1..] == s;
  }

  lemma {:induction false} CrlfIsJoin(ls: seq<string>)
    requires ls != [] && AllClean(ls)
    ensures Replace(Join(ls, [LF]), [LF], [CR, LF]) == Join(ls, [CR, LF])
    decreases |ls|, |ls[0]|
  {
    if ls[0] == "" {
      if |ls| > 1 {
        assert ls == [""] + ls[1..];
        JoinBreak(ls[1..], [LF]);
        JoinBreak(ls[1..], [CR, LF]);
        CrlfIsJoin(ls[1..]);
        BreakStep(LF, Join(ls[1..], [LF]));
      }
    } else {
      var c, rest := ls[0][0], [ls[0][1..]] + ls[1..];
      assert ls[0] == [c] + rest[0] && ls == [[c] + rest[0]] + rest[1..];
      assert AllClean(rest) && !IsBreak(c);
      JoinCons(c, rest, [LF]);
      JoinCons(c, rest, [CR, LF]);
      CrlfIsJoin(rest);
      BreakStep(c, Join(rest, [LF]));
    }
  }

  lemma {:induction false} BreakStep(c: char, s: string)
    ensures Replace([c] + s, [LF], [CR, LF]) == (if c == LF then [CR, LF] else [c]) + Replace(s, [LF], [CR, LF])
  {
    assert ([c] + s)[..1] == [c] && ([c] + s)[1..] == s;
  }

  /** Converting keeps the lines and joins them with the chosen terminator. */
  lemma {:induction false} ApplyJoinsLines(e: LineEnding, s: string)
    ensures Apply(e, s) == Join(Lines(s), Terminator(e))
  {
    StripIsJoin(s);
    if e == Crlf { CrlfIsJoin(Lines(s)); }
  }

  lemma {:induction false} LinesOfJoin(ls: seq<string>, e: LineEnding)
    requires ls != [] && AllClean(ls)
    ensures Lines(Join(ls, Terminator(e))) == ls
    decreases |ls|, |ls[0]|
  {
    var sep := Terminator(e);
    if ls[0] == "" {
      if |ls| > 1 {
        assert ls == [""] + ls[1..];
        JoinBreak(ls[1..], sep);
        LinesOfJoin(ls[1..], e);
        assert (sep + Join(ls[1..], sep))[|sep|..] == Join(ls[1..], sep);
      } else {
        assert ls == [""];
      }
    } else {
      var c, rest := ls[0][0], [ls[0][1..]] + ls[1..];
      assert ls[0] == [c] + rest[0] && ls == [[c] + rest[0]] + rest[1..];
      assert AllClean(rest) && !IsBreak(c);
      JoinCons(c, rest, sep);
      LinesOfJoin(rest, e);
      assert ([c] + Join(rest, sep))[1..] == Join(rest, sep);
    }
  }

  /** The last conversion alone decides, whatever was applied before it. */
  lemma {:induction false} ApplyLastWins(a: LineEnding, b: LineEnding, s: string)
    ensures Apply(a, Apply(b, s)) == Apply(a, s)
  {
    ApplyJoinsLines(b, s);
    LinesOfJoin(Lines(s), b);
    ApplyJoinsLines(a, Apply(b, s));
    ApplyJoinsLines(a, s);
  }

  // ---- Uniformity and detection -------------------------------------------

  /** No CR under Lf; under Crlf every CR is followed by LF and every LF preceded by CR. */
  ghost predicate Uniform(e: LineEnding, t: string) {
    forall i :: 0 <= i < |t| ==> UniformAt(e, t, i)
  }

  predicate UniformAt(e: LineEnding, t: string, i: nat)
    requires i < |t|
  {
    match e
    case Lf => t[i] != CR
    case Crlf =>
      && (t[i] == CR ==> i + 1 < |t| && t[i + 1] == LF)
      && (t[i] == LF ==> 0 < i && t[i - 1] == CR)
  }

  lemma {:induction false} JoinUniform(ls: seq<string>, e: LineEnding)
    requires ls != [] && AllClean(ls)
    ensures Uniform(e, Join(ls, Terminator(e)))
    ensures 0 < |Join(ls, Terminator(e))| ==> Join(ls, Terminator(e))[0] != LF || e == Lf
  {
    if |ls| == 1 {
      assert Clean(ls[0]);
    } else {
      JoinUniform(ls[1..], e);
      UniformStep(e, ls[0], Join(ls[1..], Terminator(e)));
    }
  }

  lemma {:induction false} UniformStep(e: LineEnding, l: string, rest: string)
    requires Clean(l) && Uniform(e, rest) && (e == Crlf ==> rest == "" || rest[0] != LF)
    ensures Uniform(e, l + Terminator(e) + rest)
  {
    var t, n := l + Terminator(e) + rest, |l| + |Terminator(e)|;
    forall i | 0 <= i < |t| ensures UniformAt(e, t, i) {
      if i < |l| {
        assert t[i] == l[i];
      } else if n <= i {
        assert UniformAt(e, rest, i - n);
      }
    }
  }

  lemma {:induction false} ApplyUniform(e: LineEnding, s: string)
    ensures Uniform(e, Apply(e, s))
  {
    ApplyJoinsLines(e, s);
    JoinUniform(Lines(s), e);
  }

  lemma {:induction false} FindFirst(s: string, c: char)
    ensures Find(s, [c]) < 0 <==> c !in s
    ensures 0 <= Find(s, [c]) ==> s[Find(s, [c])] == c && c !in s[..Find(s, [c])]
  {
    if s != "" {
      FindFirst(s[1..], c);
      assert s == [s[0]] + s[1..];
      if s[0] == c {
        assert s[..1] == [c];
      } else {
        assert s[..1][0] != c;
        var i := Find(s[1..], [c]);
        if 0 <= i { assert s[..i + 1] == [s[0]] + s[1..][..i]; }
      }
    }
  }

  /** A pair is found no later than any place where one starts. */
  lemma {:induction false} FindPair(s: string, k: nat)
    requires k + 1 < |s| && s[k] == CR && s[k + 1] == LF
    ensures 0 <= Find(s, [CR, LF]) <= k
  {
    if s[..2] != [CR, LF] {
      assert 0 < k;
      FindPair(s[1..], k - 1);
    }
  }

  lemma {:induction false} LinesBreaks(s: string)
    ensures |Lines(s)| == 1 <==> Clean(s)
  {
    if s != "" {
      assert s == [s[0]] + s[1..];
      LinesBreaks(s[1..]);
    }
  }

  /** The first LF of the text stands at `k`, behind a CR. */
  predicate FirstBreakIsPair(s: string, k: int) {
    0 < k < |s| && s[k] == LF && s[k - 1] == CR && LF !in s[..k]
  }

  /** Any text is taken for Crlf exactly when it has an LF and the first one follows a CR. */
  lemma {:induction false} DetectIff(s: string)
    ensures Detect(s) == Crlf <==> exists k :: FirstBreakIsPair(s, k)
  {
    var pair, lf := Find(s, [CR, LF]), Find(s, [LF]);
    FindFirst(s, LF);
    if 0 <= pair {
      assert s[pair] == s[pair..pair + 2][0] == CR && s[pair + 1] == s[pair..pair + 2][1] == LF;
      if pair <= lf { assert FirstBreakIsPair(s, lf); }
    }
    if k :| FirstBreakIsPair(s, k) {
      FindPair(s, k - 1);
    }
  }

  /** A converted text is detected as Crlf exactly when the text had a line break. */
  lemma {:induction false} DetectApplied(s: string)
    ensures Detect(Apply(Crlf, s)) == Crlf <==> !Clean(s)
  {
    var t, ls := Apply(Crlf, s), Lines(s);
    ApplyJoinsLines(Crlf, s);
    LinesBreaks(s);
    FindFirst(t, LF);
    var pair, lf := Find(t, [CR, LF]), Find(t, [LF]);
    if |ls| == 1 {
      assert t == ls[0] && Clean(t);
    } else {
      ApplyUniform(Crlf, s);
      assert t == ls[0] + [CR, LF] + Join(ls[1..], [CR, LF]);
      assert t[|ls[0]| + 1] == LF && UniformAt(Crlf, t, lf);
      FindPair(t, lf - 1);
    }
  }
}
