/**
 * The shell patterns of `filepath.Match` on a system whose separator is `/`:
 * `*` matches any run of non-separator characters, `?` one non-separator
 * character, a backslash makes the next character literal, and every other
 * character matches itself.  A pattern ending in a lone backslash is
 * malformed.
 */
module Glob {
  import opened Outcomes

  /** The only error `filepath.Match` reports. */
  datatype MatchError = BadPattern

  /** No backslash is left without a character to escape. */
  predicate WellFormedPattern(p: string)
    decreases |p|
  {
    if p == [] then true
    else if p[0] == '\\' then |p| >= 2 && WellFormedPattern(p[2..])
    else WellFormedPattern(p[1..])
  }

  /** Whether the whole of `s` matches the whole of `p`. */
  predicate Glob(p: string, s: string)
    decreases |p| + |s|
  {
    if p == [] then s == []
    else if p[0] == '*' then
      Glob(p[1..], s) || (s != [] && s[0] != '/' && Glob(p, s[1..]))
    else if p[0] == '?' then
      s != [] && s[0] != '/' && Glob(p[1..], s[1..])
    else if p[0] == '\\' && |p| >= 2 then
      s != [] && s[0] == p[1] && Glob(p[2..], s[1..])
    else
      s != [] && s[0] == p[0] && Glob(p[1..], s[1..])
  }

  /** `filepath.Match(pattern, name)`. */
  function Match(pattern: string, name: string): (r: Result<bool, MatchError>)
    ensures r.Err? <==> !WellFormedPattern(pattern)
    ensures r.Ok? ==> r.value == Glob(pattern, name)
  {
    if WellFormedPattern(pattern) then Ok(Glob(pattern, name)) else Err(BadPattern)
  }

  /** The `matched` value a caller that drops the error sees: Go returns
      false together with `ErrBadPattern`. */
  predicate Matched(pattern: string, name: string)
  {
    match Match(pattern, name)
    case Ok(b) => b
    case Err(_) => false
  }

  /** A pattern that holds no separator only matches names without one:
      patterns match within a single path element. */
  lemma {:induction false} GlobStaysInElement(p: string, s: string)
    requires '/' !in p
    requires Glob(p, s)
    ensures '/' !in s
    decreases |p| + |s|
  {
    if p == [] {
    } else if p[0] == '*' {
      if Glob(p[1..], s) {
        GlobStaysInElement(p[1..], s);
      } else {
        GlobStaysInElement(p, s[1..]);
        assert s == [s[0]] + s[1..];
      }
    } else if p[0] == '?' {
      GlobStaysInElement(p[1..], s[1..]);
      assert s == [s[0]] + s[1..];
    } else if p[0] == '\\' && |p| >= 2 {
      GlobStaysInElement(p[2..], s[1..]);
      assert s == [s[0]] + s[1..];
    } else {
      GlobStaysInElement(p[1..], s[1..]);
      assert s == [s[0]] + s[1..];
    }
  }

  /** Characters with no special meaning in a pattern. */
  predicate IsLiteral(q: string)
  {
    forall i :: 0 <= i < |q| ==> q[i] != '*' && q[i] != '?' && q[i] != '\\'
  }

  /** A pattern without special characters matches exactly itself. */
  lemma {:induction false} LiteralMatchesItself(q: string, s: string)
    requires IsLiteral(q)
    ensures Glob(q, s) <==> s == q
    decreases |q|
  {
    if q != [] && s != [] {
      LiteralMatchesItself(q[1..], s[1..]);
      assert s == [s[0]] + s[1..];
      assert q == [q[0]] + q[1..];
    }
  }

  /** `*` followed by a literal suffix (as in `*.log`) matches exactly the
      names that end in the suffix and have no separator before it. */
  lemma {:induction false} StarSuffix(q: string, s: string)
    requires IsLiteral(q)
    ensures Glob("*" + q, s) <==>
            |s| >= |q| && s[|s| - |q|..] == q && '/' !in s[..|s| - |q|]
    decreases |s|
  {
    var p := "*" + q;
    assert p[1..] == q;
    LiteralMatchesItself(q, s);
    if s != [] {
      StarSuffix(q, s[1..]);
      if |s| > |q| {
        assert s[1..][|s| - 1 - |q|..] == s[|s| - |q|..];
        assert s[..|s| - |q|] == [s[0]] + s[1..][..|s| - 1 - |q|];
      } else if |s| == |q| {
        assert s[..0] == [];
      }
    }
  }

  /** `*.log` matches `app.log` but not `app.txt`. */
  lemma StarDotLogExample()
    ensures Matched("*.log", "app.log")
    ensures !Matched("*.log", "app.txt")
  {
    StarDotLogWellFormed();
    StarDotLogGlob();
  }

  lemma StarDotLogWellFormed()
    ensures WellFormedPattern("*.log")
  {
    assert WellFormedPattern(".log") by {
      assert ".log"[1..] == "log" && "log"[1..] == "og" && "og"[1..] == "g" && "g"[1..] == "";
    }
    assert "*.log"[1..] == ".log";
  }

  lemma StarDotLogGlob()
    ensures Glob("*.log", "app.log") && !Glob("*.log", "app.txt")
  {
    var q := ".log";
    assert IsLiteral(q);
    assert "*.log" == "*" + q;
    StarSuffix(q, "app.log");
    StarSuffix(q, "app.txt");
    assert "app.log"[3..] == q && "app.log"[..3] == "app";
    assert "app.txt"[3..] != q by {
      assert "app.txt"[3..][1] == 't';
    }
  }
}
