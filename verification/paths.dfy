/**
  Slash-separated path handling as done by Go's `path` package: `Base`
  returns the last element of a path and `Ext` the suffix of a path that
  starts at the final dot of its final element.
*/
module Paths {

  /** `suffix` is a (possibly empty) suffix of `s`. */
  predicate IsSuffix(suffix: string, s: string) {
    |suffix| <= |s| && s[|s| - |suffix|..] == suffix
  }

  /** No dot occurs in the final slash-separated element of `p`. */
  ghost predicate NoDotInLastElement(p: string) {
    forall k :: 0 <= k < |p| && '/' !in p[k..] ==> p[k] != '.'
  }

  /** Every character of `p` is a slash (vacuously so for the empty path). */
  predicate AllSlashes(p: string) {
    forall k :: 0 <= k < |p| ==> p[k] == '/'
  }

  /**
    The extension of `p`: the suffix starting at the final dot of the final
    element, or the empty string when that element has no dot. The scan runs
    from the end and stops at the first slash.
  */
  function Ext(p: string): (e: string)
    ensures IsSuffix(e, p)
    ensures e != [] ==> e[0] == '.'
    ensures forall k :: 1 <= k < |e| ==> e[k] != '.' && e[k] != '/'
  {
    if p == [] || p[|p| - 1] == '/' then []
    else if p[|p| - 1] == '.' then "."
    else
      var e' := Ext(p[..|p| - 1]);
      if e' == [] then [] else e' + [p[|p| - 1]]
  }

  /** `p` without its trailing slashes. */
  function TrimTrailingSlashes(p: string): (r: string)
    ensures |r| <= |p| && r == p[..|r|]
    ensures r == [] || r[|r| - 1] != '/'
    ensures forall k :: |r| <= k < |p| ==> p[k] == '/'
  {
    if p != [] && p[|p| - 1] == '/' then TrimTrailingSlashes(p[..|p| - 1]) else p
  }

  /** The part of `p` after its last slash (all of `p` if it has none). */
  function AfterLastSlash(p: string): (r: string)
    ensures IsSuffix(r, p)
    ensures '/' !in r
    ensures |r| < |p| ==> p[|p| - |r| - 1] == '/'
  {
    if p == [] || p[|p| - 1] == '/' then []
    else AfterLastSlash(p[..|p| - 1]) + [p[|p| - 1]]
  }

  /**
    The last element of `p`: trailing slashes are removed first; the empty
    path gives "." and a path of slashes only gives "/".
  */
  function Base(p: string): (b: string)
    ensures b != []
    ensures p == [] ==> b == "."
    ensures p != [] && AllSlashes(p) ==> b == "/"
    ensures !AllSlashes(p) ==> '/' !in b
  {
    if p == [] then "."
    else
      var e := AfterLastSlash(TrimTrailingSlashes(p));
      if e == [] then "/" else e
  }

  /** `Ext` is empty exactly when the final element of `p` has no dot. */
  lemma {:induction false} ExtEmptyIffNoDot(p: string)
    ensures Ext(p) == [] <==> NoDotInLastElement(p)
  {
    if p == [] {
    } else if p[|p| - 1] == '/' {
      forall k | 0 <= k < |p|
        ensures '/' in p[k..]
      {
        assert p[k..][|p| - 1 - k] == '/';
      }
    } else if p[|p| - 1] == '.' {
      assert '/' !in p[|p| - 1..];
    } else {
      var q := p[..|p| - 1];
      ExtEmptyIffNoDot(q);
      if Ext(q) == [] {
        forall k | 0 <= k < |p| && '/' !in p[k..]
          ensures p[k] != '.'
        {
          if k < |p| - 1 {
            assert q[k..] <= p[k..];
            assert forall c :: c in q[k..] ==> c in p[k..];
          }
        }
      } else {
        var k :| 0 <= k < |q| && '/' !in q[k..] && q[k] == '.';
        assert p[k..] == q[k..] + [p[|p| - 1]];
      }
    }
  }

  /**
    When position `k` holds the last dot of the final element, `Ext` is the
    suffix that starts there: together with `ExtEmptyIffNoDot` this pins
    `Ext` down completely.
  */
  lemma {:induction false} ExtIsSuffixFromLastDot(p: string, k: nat)
    requires k < |p| && p[k] == '.'
    requires forall j :: k < j < |p| ==> p[j] != '.' && p[j] != '/'
    ensures Ext(p) == p[k..]
    decreases |p|
  {
    if k < |p| - 1 {
      var q := p[..|p| - 1];
      ExtIsSuffixFromLastDot(q, k);
      assert p[k..] == q[k..] + [p[|p| - 1]];
    }
  }

  /**
    For a path that is not all slashes, `Base` is the element that ends
    the path (ignoring trailing slashes) and starts at the path's beginning
    or just after a slash.
  */
  lemma BaseIsLastElement(p: string) returns (j: nat)
    requires !AllSlashes(p)
    ensures j + |Base(p)| <= |p|
    ensures p[j..j + |Base(p)|] == Base(p)
    ensures j == 0 || p[j - 1] == '/'
    ensures AllSlashes(p[j + |Base(p)|..])
  {
    TrimmedPath(p);
    var t := TrimTrailingSlashes(p);
    var b := AfterLastSlash(t);
    assert b != [] by {
      assert t[|t| - 1] != '/';
    }
    j := |t| - |b|;
    assert p[j..j + |b|] == t[j..] by {
      assert t == p[..|t|];
    }
    assert j > 0 ==> p[j - 1] == t[j - 1];
  }

  /** Trimming a path that is not all slashes keeps a prefix that ends in a non-slash, followed by slashes only. */
  lemma TrimmedPath(p: string)
    requires !AllSlashes(p)
    ensures var t := TrimTrailingSlashes(p);
      && t != [] && t[|t| - 1] != '/' && t == p[..|t|]
      && AllSlashes(p[|t|..])
  {
    var t := TrimTrailingSlashes(p);
    var k0 :| 0 <= k0 < |p| && p[k0] != '/';
    assert |t| > k0;
    forall k | 0 <= k < |p| - |t|
      ensures p[|t|..][k] == '/'
    {
      assert p[|t|..][k] == p[|t| + k];
    }
  }

  /** The last element of a path ending in "/name", for a name without slashes, is the name. */
  lemma BaseOfLastName(dir: string, name: string)
    requires name != [] && '/' !in name
    ensures Base(dir + "/" + name) == name
  {
    var p := dir + "/" + name;
    assert TrimTrailingSlashes(p) == p by {
      assert p[|p| - 1] == name[|name| - 1];
    }
    assert p[|dir| + 1..] == name;
    assert p[|dir|] == '/';
    assert AfterLastSlash(p) == name;
  }

  /** A name that ends in a dot-suffix free of further dots and slashes has that suffix as extension. */
  lemma ExtOfSuffixedName(stem: string, suffix: string)
    requires |suffix| >= 1 && suffix[0] == '.'
    requires forall k :: 1 <= k < |suffix| ==> suffix[k] != '.' && suffix[k] != '/'
    ensures Ext(stem + suffix) == suffix
  {
    var p := stem + suffix;
    ExtIsSuffixFromLastDot(p, |stem|);
    assert p[|stem|..] == suffix;
  }
}
