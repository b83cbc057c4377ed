/** Collapsing runs of blank lines: the substitution of two newlines for every three or more. */
module Newlines {
  import opened Text

  /** How many newlines a string starts with. */
  function NewlineRun(s: string): (n: nat)
    ensures n <= |s|
    ensures n < |s| ==> s[n] != '\n'
  {
    if s != [] && s[0] == '\n' then 1 + NewlineRun(s[1..]) else 0
  }

  /** `re.sub(r"\n{3,}", "\n\n", s)`: at each position the longest match, else one character on. */
  function CollapseNewlines(s: string): string
    decreases |s|
  {
    if s == [] then []
    else if NewlineRun(s) >= 3 then "\n\n" + CollapseNewlines(s[NewlineRun(s)..])
    else [s[0]] + CollapseNewlines(s[1..])
  }

  /** The same, one character at a time: a newline stays unless two stand right before it. */
  function Thinned(s: string, before: nat): string
    decreases |s|
  {
    if s == [] then []
    else if s[0] == '\n' then (if before >= 2 then [] else ['\n']) + Thinned(s[1..], before + 1)
    else [s[0]] + Thinned(s[1..], 0)
  }

  predicate NoTriple(s: string) {
    forall i :: 0 <= i < |s| - 2 ==> !(s[i] == '\n' && s[i + 1] == '\n' && s[i + 2] == '\n')
  }

  /** The text without its newlines. */
  function Letters(s: string): string {
    if s == [] then [] else (if s[0] == '\n' then [] else [s[0]]) + Letters(s[1..])
  }

  // ---------------------------------------------------------------- the pattern thins runs

  lemma {:induction false} ThinnedRun(s: string, before: nat)
    requires before >= 2
    ensures Thinned(s, before) == Thinned(s[NewlineRun(s)..], 0)
    decreases |s|
  {
    if s != [] && s[0] == '\n' {
      ThinnedRun(s[1..], before + 1);
      assert s[1..][NewlineRun(s[1..])..] == s[NewlineRun(s)..];
    } else {
      assert s[0..] == s;
    }
  }

  lemma {:induction false} CollapseThins(s: string, before: nat)
    requires before == 0 || before + NewlineRun(s) <= 2
    ensures CollapseNewlines(s) == Thinned(s, before)
    decreases |s|
  {
    if s == [] {
    } else if NewlineRun(s) >= 3 {
      var rest := s[NewlineRun(s)..];
      var tail := s[2..];
      assert s[1..][1..] == tail;
      ThinnedRun(tail, 2);
      assert NewlineRun(s) == 2 + NewlineRun(tail);
      assert tail[NewlineRun(tail)..] == rest;
      CollapseThins(rest, 0);
      assert Thinned(s[1..], 1) == ['\n'] + Thinned(tail, 2);
      assert ['\n'] + (['\n'] + Thinned(rest, 0)) == "\n\n" + Thinned(rest, 0);
    } else if s[0] == '\n' {
      CollapseThins(s[1..], before + 1);
    } else {
      CollapseThins(s[1..], 0);
    }
  }

  // ---------------------------------------------------------------- what thinning guarantees

  lemma Prepend(c: char, s: string)
    requires NoTriple(s)
    requires c == '\n' ==> NewlineRun(s) < 2
    ensures NoTriple([c] + s)
  {
    var r := [c] + s;
    forall i | 0 <= i < |r| - 2 ensures !(r[i] == '\n' && r[i + 1] == '\n' && r[i + 2] == '\n') {
      if i > 0 {
        assert r[i] == s[i - 1] && r[i + 1] == s[i] && r[i + 2] == s[i + 1];
      } else if c == '\n' && s[0] == '\n' {
        assert NewlineRun(s) == 1 + NewlineRun(s[1..]);
        assert s[1] != '\n';
      }
    }
  }

  lemma RunOfPrepended(c: char, s: string)
    ensures NewlineRun([c] + s) == if c == '\n' then 1 + NewlineRun(s) else 0
  {
    assert ([c] + s)[1..] == s;
  }

  lemma {:induction false} ThinnedHasNoTriple(s: string, before: nat)
    ensures NoTriple(Thinned(s, before))
    ensures NewlineRun(Thinned(s, before)) + before <= 2 || NewlineRun(Thinned(s, before)) == 0
    decreases |s|
  {
    if s == [] {
    } else if s[0] == '\n' {
      ThinnedHasNoTriple(s[1..], before + 1);
      if before < 2 {
        Prepend('\n', Thinned(s[1..], before + 1));
        RunOfPrepended('\n', Thinned(s[1..], before + 1));
      } else {
        assert Thinned(s, before) == Thinned(s[1..], before + 1);
      }
    } else {
      ThinnedHasNoTriple(s[1..], 0);
      Prepend(s[0], Thinned(s[1..], 0));
      RunOfPrepended(s[0], Thinned(s[1..], 0));
    }
  }

  lemma {:induction false} ThinnedKeepsLetters(s: string, before: nat)
    ensures Letters(Thinned(s, before)) == Letters(s)
    decreases |s|
  {
    if s == [] {
    } else if s[0] == '\n' {
      ThinnedKeepsLetters(s[1..], before + 1);
      if before < 2 {
        assert Thinned(s, before)[1..] == Thinned(s[1..], before + 1);
      } else {
        assert Thinned(s, before) == Thinned(s[1..], before + 1);
      }
    } else {
      ThinnedKeepsLetters(s[1..], 0);
      assert Thinned(s, before)[1..] == Thinned(s[1..], 0);
    }
  }

  lemma TailNoTriple(s: string)
    requires s != [] && NoTriple(s)
    ensures NoTriple(s[1..])
    ensures NewlineRun(s) <= 2
  {
    var t := s[1..];
    forall i | 0 <= i < |t| - 2 ensures !(t[i] == '\n' && t[i + 1] == '\n' && t[i + 2] == '\n') {
      assert t[i] == s[i + 1] && t[i + 1] == s[i + 2] && t[i + 2] == s[i + 3];
    }
    if |s| >= 3 {
      assert !(s[0] == '\n' && s[1] == '\n' && s[2] == '\n');
      RunBounded(s);
    }
  }

  lemma RunBounded(s: string)
    requires |s| >= 3 && !(s[0] == '\n' && s[1] == '\n' && s[2] == '\n')
    ensures NewlineRun(s) <= 2
  {
    if s[0] == '\n' && s[1] == '\n' {
      assert s[1..][1..][0] == s[2];
      assert NewlineRun(s) == 1 + NewlineRun(s[1..]) && NewlineRun(s[1..]) == 1 + NewlineRun(s[1..][1..]);
    } else if s[0] == '\n' {
      assert s[1..][0] == s[1];
      assert NewlineRun(s) == 1 + NewlineRun(s[1..]);
    }
  }

  lemma {:induction false} NoTripleIsFixed(s: string)
    requires NoTriple(s)
    ensures CollapseNewlines(s) == s
    decreases |s|
  {
    if s != [] {
      TailNoTriple(s);
      NoTripleIsFixed(s[1..]);
    }
  }

  /** The pass leaves no three newlines in a row, changes exactly the texts that had them, and only drops newlines. */
  lemma Collapsed(s: string)
    ensures NoTriple(CollapseNewlines(s))
    ensures CollapseNewlines(s) == s <==> NoTriple(s)
    ensures CollapseNewlines(CollapseNewlines(s)) == CollapseNewlines(s)
    ensures Letters(CollapseNewlines(s)) == Letters(s)
  {
    CollapseThins(s, 0);
    ThinnedHasNoTriple(s, 0);
    ThinnedKeepsLetters(s, 0);
    NoTripleIsFixed(CollapseNewlines(s));
    if NoTriple(s) {
      NoTripleIsFixed(s);
    }
  }

  // ---------------------------------------------------------------- stripping afterwards

  lemma {:induction false} StripLeftKeeps(s: string)
    requires NoTriple(s)
    ensures NoTriple(StripLeft(s))
  {
    if s != [] && IsSpace(s[0]) {
      TailNoTriple(s);
      StripLeftKeeps(s[1..]);
    }
  }

  lemma StripKeeps(s: string)
    requires NoTriple(s)
    ensures NoTriple(Strip(s))
  {
    StripLeftKeeps(s);
    var t, r := StripLeft(s), Strip(s);
    forall i | 0 <= i < |r| - 2 ensures !(r[i] == '\n' && r[i + 1] == '\n' && r[i + 2] == '\n') {
      assert r[i] == t[i] && r[i + 1] == t[i + 1] && r[i + 2] == t[i + 2];
    }
  }
}
