/** Runs of a state machine, given as the relation between a state and the next. */
module Runs {

  ghost predicate IsPath<S(!new)>(path: seq<S>, next: (S, S) -> bool) {
    |path| > 0 && forall i | 0 <= i < |path| - 1 :: next(path[i], path[i + 1])
  }

  /** Some path leads from s to e. */
  ghost predicate Reaches<S(!new)>(s: S, e: S, next: (S, S) -> bool) {
    exists path :: IsPath(path, next) && path[0] == s && path[|path| - 1] == e
  }

  lemma Extend<S(!new)>(path: seq<S>, e: S, next: (S, S) -> bool)
    requires IsPath(path, next) && next(path[|path| - 1], e)
    ensures IsPath(path + [e], next)
  {
    var longer := path + [e];
    forall i | 0 <= i < |longer| - 1 ensures next(longer[i], longer[i + 1]) {
      if i < |path| - 1 {
        assert next(path[i], path[i + 1]);
      }
    }
  }

  lemma Here<S(!new)>(s: S, next: (S, S) -> bool)
    ensures Reaches(s, s, next)
  {
    assert IsPath([s], next);
  }

  lemma OneMore<S(!new)>(s: S, e: S, f: S, next: (S, S) -> bool)
    requires Reaches(s, e, next) && next(e, f)
    ensures Reaches(s, f, next)
  {
    var path :| IsPath(path, next) && path[0] == s && path[|path| - 1] == e;
    Extend(path, f, next);
    assert (path + [f])[0] == s;
  }

  lemma {:induction false} PathThen<S(!new)>(s: S, path: seq<S>, k: nat, next: (S, S) -> bool)
    requires IsPath(path, next) && k < |path| && Reaches(s, path[0], next)
    ensures Reaches(s, path[k], next)
  {
    if k > 0 {
      PathThen(s, path, k - 1, next);
      assert next(path[k - 1], path[k]);
      OneMore(s, path[k - 1], path[k], next);
    }
  }

  lemma Compose<S(!new)>(s: S, e: S, f: S, next: (S, S) -> bool)
    requires Reaches(s, e, next) && Reaches(e, f, next)
    ensures Reaches(s, f, next)
  {
    var path :| IsPath(path, next) && path[0] == e && path[|path| - 1] == f;
    PathThen(s, path, |path| - 1, next);
  }
}
