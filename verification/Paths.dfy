/** Splitting paths into components, and joining components into a path. */
module Paths {

  const SLASH: char := '/'

  /** The length of the leading run without `delim`. */
  function Run(s: string, delim: char): (n: nat)
    ensures n <= |s| && (forall i :: 0 <= i < n ==> s[i] != delim) && (n < |s| ==> s[n] == delim)
  {
    if s == "" || s[0] == delim then 0 else 1 + Run(s[1..], delim)
  }

  /** The maximal runs without `delim`, in order. */
  function Components(s: string, delim: char): (cs: seq<string>)
    ensures forall c :: c in cs ==> IsComponent(c, delim)
    decreases |s|
  {
    if s == "" then []
    else if s[0] == delim then Components(s[1..], delim)
    else [s[..Run(s, delim)]] + Components(s[Run(s, delim)..], delim)
  }

  predicate IsComponent(c: string, delim: char) {
    c != "" && delim !in c
  }

  lemma RunIs(s: string, delim: char, n: nat)
    requires n <= |s| && (forall i :: 0 <= i < n ==> s[i] != delim) && (n < |s| ==> s[n] == delim)
    ensures Run(s, delim) == n
  {
  }

  /** A component followed by the end or by a delimiter comes off as one piece. */
  lemma TakeComponent(c: string, rest: string, delim: char)
    requires IsComponent(c, delim) && (rest == "" || rest[0] == delim)
    ensures Components(c + rest, delim) == [c] + Components(rest, delim)
  {
    var s := c + rest;
    RunIs(s, delim, |c|);
    assert s[..|c|] == c && s[|c|..] == rest;
  }

  /** The loop over start and i, which keeps no empty strings. */
  method Split(s: string, delim: char) returns (result: seq<string>)
    ensures result == Components(s, delim)
  {
    hide Components, Run;
    result := [];
    var start, i := 0, 0;
    assert s[0..] == s;
    while i < |s|
      invariant 0 <= start <= i <= |s|
      invariant delim !in s[start..i]
      invariant result + Components(s[start..], delim) == Components(s, delim)
    {
      if s[i] == delim {
        AtDelimiter(s, delim, start, i);
        if i - start > 0 {
          result := result + [s[start..i]];
        }
        start := i + 1;
      }
      i := i + 1;
    }
    assert s[start..i] == s[start..];
    AtEnd(s, delim, start);
    if i - start > 0 {
      result := result + [s[start..i]];
    }
  }

  /** A delimiter ends the run before it, if that is not empty. */
  lemma AtDelimiter(s: string, delim: char, start: nat, i: nat)
    requires start <= i < |s| && s[i] == delim && delim !in s[start..i]
    ensures Components(s[start..], delim) == (if start < i then [s[start..i]] else []) + Components(s[i + 1..], delim)
  {
    hide Run;
    var c := s[start..i];
    assert s[start..] == c + s[i..];
    assert s[i..][1..] == s[i + 1..];
    assert Components(s[i..], delim) == Components(s[i + 1..], delim);
    if start < i { TakeComponent(c, s[i..], delim); }
  }

  lemma AtEnd(s: string, delim: char, start: nat)
    requires start <= |s| && delim !in s[start..]
    ensures Components(s[start..], delim) == if start < |s| then [s[start..]] else []
  {
    hide Run;
    if start < |s| {
      TakeComponent(s[start..], "", delim);
      assert s[start..] + "" == s[start..];
    }
  }

  // ----- paths and their components -----

  function Join(cs: seq<string>): string {
    if cs == [] then "" else [SLASH] + cs[0] + Join(cs[1..])
  }

  /** One leading slash, single separators and no trailing slash. */
  ghost predicate Canonical(p: string) {
    p == [SLASH] || (p != "" && p == Join(Components(p, SLASH)))
  }

  /** A path of components splits back into them. */
  lemma {:induction false} JoinSplits(cs: seq<string>)
    requires forall c :: c in cs ==> IsComponent(c, SLASH)
    ensures Components(Join(cs), SLASH) == cs
  {
    if cs != [] {
      var rest := Join(cs[1..]);
      JoinSplits(cs[1..]);
      assert rest == "" || rest[0] == SLASH;
      TakeComponent(cs[0], rest, SLASH);
      hide Join, Run;
      var p := [SLASH] + cs[0] + rest;
      assert p[1..] == cs[0] + rest;
      assert Components(p, SLASH) == Components(p[1..], SLASH);
    }
  }

  function Letters(s: string): nat {
    if s == "" then 0 else (if s[0] == SLASH then 0 else 1) + Letters(s[1..])
  }

  function Sum(cs: seq<string>): nat {
    if cs == [] then 0 else |cs[0]| + Sum(cs[1..])
  }

  lemma {:induction false} LettersOfRun(c: string, rest: string)
    requires SLASH !in c
    ensures Letters(c + rest) == |c| + Letters(rest)
  {
    if c == "" {
      assert c + rest == rest;
    } else {
      LettersOfRun(c[1..], rest);
      assert (c + rest)[1..] == c[1..] + rest;
      assert c[0] in c;
    }
  }

  lemma {:induction false} LettersAreSplit(s: string)
    ensures Letters(s) == Sum(Components(s, SLASH))
    decreases |s|
  {
    if s != "" {
      if s[0] == SLASH {
        LettersAreSplit(s[1..]);
      } else {
        var n := Run(s, SLASH);
        LettersAreSplit(s[n..]);
        LettersOfRun(s[..n], s[n..]);
        assert s == s[..n] + s[n..];
      }
    }
  }

  predicate Absolute(p: string) {
    p == "" || p[0] == SLASH
  }

  lemma {:induction false} JoinLast(cs: seq<string>)
    requires cs != [] && forall c :: c in cs ==> IsComponent(c, SLASH)
    ensures Join(cs) != "" && Join(cs)[|Join(cs)| - 1] != SLASH
  {
    assert cs[0] in cs && cs[0][|cs[0]| - 1] in cs[0];
    if |cs| > 1 {
      JoinLast(cs[1..]);
    }
  }

  /** Cutting as many characters as the joined components have cuts off those components exactly
      when the path begins with them joined; otherwise too many letters are left. */
  lemma {:induction false} Cut(p: string, cs: seq<string>)
    requires Absolute(p) && cs <= Components(p, SLASH)
    ensures |Join(cs)| <= |p|
    ensures Join(cs) <= p ==> Components(p[|Join(cs)|..], SLASH) == Components(p, SLASH)[|cs|..]
    ensures !(Join(cs) <= p) ==> Letters(p[|Join(cs)|..]) > Sum(Components(p, SLASH)[|cs|..])
    decreases |p|
  {
    if cs != [] {
      var q := p[1..];
      if q[0] == SLASH {
        CutSlash(p, cs);
      } else {
        CutComponent(p, cs);
      }
    }
  }

  lemma {:induction false} CutSlash(p: string, cs: seq<string>)
    requires Absolute(p) && cs <= Components(p, SLASH) && cs != [] && |p| > 1 && p[1] == SLASH
    ensures |Join(cs)| <= |p|
    ensures !(Join(cs) <= p) && Letters(p[|Join(cs)|..]) > Sum(Components(p, SLASH)[|cs|..])
    decreases |p|, 0
  {
    var q, n := p[1..], |Join(cs)|;
    assert Components(p, SLASH) == Components(q, SLASH);
    assert cs[0] == Components(p, SLASH)[0] && IsComponent(cs[0], SLASH);
    assert Join(cs)[1] == cs[0][0] && cs[0][0] in cs[0];
    forall c | c in cs ensures IsComponent(c, SLASH) { assert c in Components(p, SLASH); }
    hide Components, Join, Sum;
    Cut(q, cs);
    JoinLast(cs);
    OneMore(p, n);
    LettersAreSplit(q[n..]);
  }

  lemma OneMore(p: string, n: nat)
    requires 0 < n < |p|
    ensures Letters(p[n..]) == (if p[n] == SLASH then 0 else 1) + Letters(p[1..][n..])
  {
    assert p[n..][1..] == p[1..][n..];
  }

  lemma {:induction false} CutComponent(p: string, cs: seq<string>)
    requires Absolute(p) && cs <= Components(p, SLASH) && cs != [] && |p| > 1 && p[1] != SLASH
    ensures |Join(cs)| <= |p|
    ensures Join(cs) <= p ==> Components(p[|Join(cs)|..], SLASH) == Components(p, SLASH)[|cs|..]
    ensures !(Join(cs) <= p) ==> Letters(p[|Join(cs)|..]) > Sum(Components(p, SLASH)[|cs|..])
    decreases |p|, 0
  {
    hide Run;
    var q := p[1..];
    var n := Run(q, SLASH);
    var r, ds := q[n..], cs[1..];
    assert Components(p, SLASH) == [q[..n]] + Components(r, SLASH);
    assert Join(cs) == [SLASH] + cs[0] + Join(ds);
    hide Components, Join, Letters, Sum;
    assert cs[0] == q[..n] && ds <= Components(r, SLASH);
    Cut(r, ds);
    assert p == [SLASH] + cs[0] + r;
    SkipHead([SLASH] + cs[0], r, Join(ds));
    assert Components(p, SLASH)[|cs|..] == Components(r, SLASH)[|ds|..];
  }

  lemma SkipHead(head: string, r: string, j: string)
    requires |j| <= |r|
    ensures (head + r)[|head + j|..] == r[|j|..] && (head + j <= head + r <==> j <= r)
  {
    assert (head + r)[..|head + j|] == head + r[..|j|];
    assert (head + j)[|head|..] == j && (head + r[..|j|])[|head|..] == r[..|j|];
  }

  /** For a canonical prefix path, slicing off its characters agrees with dropping its components
      exactly when it begins the path as a string. */
  lemma SliceDrops(p: string, m: string)
    requires p != "" && p[0] == SLASH && Canonical(m)
    requires Components(m, SLASH) <= Components(p, SLASH)
    ensures |m| <= |p|
    ensures Components(p[|m|..], SLASH) == Components(p, SLASH)[|Components(m, SLASH)|..] <==> m <= p
  {
    var cs := Components(m, SLASH);
    if m == [SLASH] {
      assert cs == [];
      assert m <= p;
    } else {
      Cut(p, cs);
      LettersAreSplit(p[|m|..]);
    }
  }

  /** The condition of SliceDrops always holds of canonical paths. */
  lemma CanonicalBegins(p: string, m: string)
    requires Canonical(p) && Canonical(m) && Components(m, SLASH) <= Components(p, SLASH)
    ensures m <= p
  {
    if m != [SLASH] && p != [SLASH] {
      JoinPrefix(Components(m, SLASH), Components(p, SLASH));
    }
  }

  lemma {:induction false} JoinPrefix(cs: seq<string>, ds: seq<string>)
    requires cs <= ds
    ensures Join(cs) <= Join(ds)
  {
    if cs != [] {
      JoinPrefix(cs[1..], ds[1..]);
    }
  }
}
