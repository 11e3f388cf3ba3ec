/**
 The string and path helpers `Store` uses to rename a walked file
 (cmd/moby/containerd.go:188-190): `strings.Replace(file, src, "", -1)`,
 `strings.TrimPrefix(_, "/")` and `filepath.Join(prefix, _)`. The path
 separator is `/`.
 */
module Paths {

  /** The fixed archive root of the content-store snapshot (line 165). */
  const StorePrefix: string := "var/lib/containerd/"

  /** `strings.HasPrefix`. */
  predicate HasPrefix(s: string, p: string) {
    |p| <= |s| && s[..|p|] == p
  }

  /** `pat` occurs somewhere in `s`. */
  predicate Occurs(pat: string, s: string)
    decreases |s|
  {
    HasPrefix(s, pat) || (s != [] && Occurs(pat, s[1..]))
  }

  /**
   `strings.Replace(s, pat, "", -1)`: every non-overlapping occurrence of `pat`,
   found from left to right, is deleted. With an empty `pat` Go returns `s`.
   */
  function RemoveAll(s: string, pat: string): (r: string)
    ensures |r| <= |s|
    decreases |s|
  {
    if pat == [] then s
    else if HasPrefix(s, pat) then RemoveAll(s[|pat|..], pat)
    else if s == [] then []
    else [s[0]] + RemoveAll(s[1..], pat)
  }

  /** `strings.TrimPrefix(s, p)`: one leading copy of `p` is removed, if there is one. */
  function TrimPrefix(s: string, p: string): (r: string)
    ensures HasPrefix(s, p) ==> p + r == s
    ensures !HasPrefix(s, p) ==> r == s
  {
    if HasPrefix(s, p) then s[|p|..] else s
  }

  /** `strings.TrimSuffix(s, "/")`. */
  function TrimSlash(s: string): (r: string)
    ensures s != [] && s[|s| - 1] == '/' ==> r + "/" == s
    ensures (s == [] || s[|s| - 1] != '/') ==> r == s
  {
    if s != [] && s[|s| - 1] == '/' then s[..|s| - 1] else s
  }

  /**
   `filepath.Join(dir, name)` for the two joins of the source: a clean `dir`
   that has at most a trailing slash. An empty element is dropped, and a
   trailing slash of `dir` does not double the separator. The cleaning of
   `.`, `..` and repeated separators inside `name` is not modelled.
   */
  function Join(dir: string, name: string): (r: string)
    ensures dir == [] ==> r == name
    ensures dir != [] && name != [] && dir[|dir| - 1] != '/' ==> r == dir + "/" + name
    ensures dir != [] && name != [] && dir[|dir| - 1] == '/' ==> r == dir + name
  {
    if dir == [] then name
    else if name == [] then (if dir == "/" then dir else TrimSlash(dir))
    else TrimSlash(dir) + "/" + name
  }

  /** The archive name `Store` gives the walked path `file` under the walk root `src`. */
  function StoreName(src: string, file: string): (r: string)
    ensures HasPrefix(r, "var/lib/containerd")
  {
    var rel := TrimPrefix(RemoveAll(file, src), "/");
    JoinUnderPrefix(rel);
    assert StorePrefix == "var/lib/containerd" + "/";
    assert rel != [] ==> Join(StorePrefix, rel) == "var/lib/containerd" + ("/" + rel);
    Join(StorePrefix, rel)
  }

  /** A string in which `pat` never occurs is left as it is. */
  lemma {:induction false} RemoveAllAbsent(s: string, pat: string)
    requires !Occurs(pat, s)
    ensures RemoveAll(s, pat) == s
    decreases |s|
  {
    if pat != [] && s != [] {
      RemoveAllAbsent(s[1..], pat);
      assert s == [s[0]] + s[1..];
    }
  }

  /** A leading occurrence is deleted and the scan resumes after it. */
  lemma RemoveAllLeading(pat: string, t: string)
    requires pat != []
    ensures RemoveAll(pat + t, pat) == RemoveAll(t, pat)
  {
    assert (pat + t)[..|pat|] == pat;
    assert (pat + t)[|pat|..] == t;
  }

  /** `pat` occurs in `s` at position `i`. */
  predicate MatchAt(s: string, i: nat, pat: string) {
    i + |pat| <= |s| && s[i..i + |pat|] == pat
  }

  /** No occurrence of `pat` in `p + t` starts inside `p`. */
  predicate NoMatchIn(pat: string, p: string, t: string) {
    forall i: nat :: i < |p| ==> !MatchAt(p + t, i, pat)
  }

  /** Where no occurrence starts, the first character is kept and the scan moves on. */
  lemma RemoveAllKeep(s: string, pat: string)
    requires pat != [] && s != [] && !HasPrefix(s, pat)
    ensures RemoveAll(s, pat) == [s[0]] + RemoveAll(s[1..], pat)
  {
  }

  lemma SeqAssoc<T>(x: seq<T>, y: seq<T>, z: seq<T>)
    ensures x + (y + z) == (x + y) + z
  {
  }

  /** A stretch in which no occurrence starts is kept, and the scan resumes after it. */
  lemma {:induction false} RemoveAllSkip(p: string, t: string, pat: string)
    requires pat != [] && NoMatchIn(pat, p, t)
    ensures RemoveAll(p + t, pat) == p + RemoveAll(t, pat)
    decreases |p|
  {
    if p == [] {
      assert p + t == t;
    } else {
      var q := p[1..];
      var s := p + t;
      assert s[0] == p[0] && s[1..] == q + t;
      assert NoMatchIn(pat, q, t) by {
        forall i: nat | i < |q|
          ensures !MatchAt(q + t, i, pat)
        {
          assert !MatchAt(s, i + 1, pat);
          if i + |pat| <= |q + t| {
            assert (q + t)[i..i + |pat|] == s[i + 1..i + 1 + |pat|];
          }
        }
      }
      RemoveAllSkip(q, t, pat);
      assert !HasPrefix(s, pat) by {
        assert !MatchAt(s, 0, pat);
        if |pat| <= |s| {
          assert s[..|pat|] == s[0..|pat|];
        }
      }
      RemoveAllKeep(s, pat);
      var r := RemoveAll(t, pat);
      calc {
        RemoveAll(s, pat);
        [p[0]] + RemoveAll(q + t, pat);
        [p[0]] + (q + r);
        { SeqAssoc([p[0]], q, r); }
        ([p[0]] + q) + r;
        { assert [p[0]] + q == p; }
        p + r;
      }
    }
  }

  /** Joining a non-empty name under the store prefix is plain concatenation. */
  lemma JoinUnderPrefix(name: string)
    ensures name != [] ==> Join(StorePrefix, name) == StorePrefix + name
    ensures Join(StorePrefix, []) == "var/lib/containerd"
  {
    assert StorePrefix == "var/lib/containerd" + "/";
  }

  /** The walk root itself becomes the archive directory `var/lib/containerd`. */
  lemma StoreNameOfRoot(src: string)
    requires src != []
    ensures StoreName(src, src) == "var/lib/containerd"
  {
    RemoveAllLeading(src, []);
    assert src + [] == src;
    JoinUnderPrefix([]);
  }

  /**
   A file `src/rel` is archived as `var/lib/containerd/rel`, provided `src`
   does not occur again in the rest of the path.
   */
  lemma StoreNameOfChild(src: string, rel: string)
    requires src != [] && rel != []
    requires !Occurs(src, "/" + rel)
    ensures StoreName(src, src + "/" + rel) == StorePrefix + rel
  {
    assert src + "/" + rel == src + ("/" + rel);
    RemoveAllLeading(src, "/" + rel);
    RemoveAllAbsent("/" + rel, src);
    assert HasPrefix("/" + rel, "/");
    assert TrimPrefix("/" + rel, "/") == rel;
    JoinUnderPrefix(rel);
  }

  /**
   Every occurrence of the walk root is deleted, not only the leading one: a
   path `src/a` + `src` + `b`, where `src` occurs nowhere else, is archived as
   `var/lib/containerd/a` + `b`, so a directory named like the root and nested
   below it is merged into its parent.
   */
  lemma StoreNameOfRecurringRoot(src: string, a: string, b: string)
    requires src != [] && a != []
    requires NoMatchIn(src, "/" + a, src + b)
    requires !Occurs(src, b)
    ensures StoreName(src, src + "/" + a + src + b) == StorePrefix + a + b
  {
    var rest := "/" + a;
    RecurringPath(src, a, b);
    RemoveBothRoots(src, rest, b);
    SeqAssoc("/", a, b);
    StoreNameOfRemoved(src, src + "/" + a + src + b, a + b);
    SeqAssoc(StorePrefix, a, b);
  }

  lemma RecurringPath(src: string, a: string, b: string)
    ensures src + "/" + a + src + b == src + (("/" + a) + (src + b))
  {
  }

  /** A path that loses its roots to `/rel` is archived as `rel` under the store prefix. */
  lemma StoreNameOfRemoved(src: string, file: string, rel: string)
    requires rel != [] && RemoveAll(file, src) == "/" + rel
    ensures StoreName(src, file) == StorePrefix + rel
  {
    assert TrimPrefix("/" + rel, "/") == rel;
    JoinUnderPrefix(rel);
  }

  /** Both occurrences of `src` in `src + p + src + b` are deleted. */
  lemma RemoveBothRoots(src: string, p: string, b: string)
    requires src != []
    requires NoMatchIn(src, p, src + b)
    requires !Occurs(src, b)
    ensures RemoveAll(src + (p + (src + b)), src) == p + b
  {
    var t := src + b;
    var u := p + t;
    RemoveAllLeading(src, u);
    RemoveAllSkip(p, t, src);
    RemoveAllLeading(src, b);
    RemoveAllAbsent(b, src);
  }

  /** Under the root `/r`, the path `/r/a/r/x` is archived as `var/lib/containerd/a/x`. */
  lemma NestedRootMerged()
    ensures StoreName("/r", "/r/a/r/x") == "var/lib/containerd/a/x"
  {
    var src, a, b := "/r", "a", "/x";
    assert !MatchAt("/a" + (src + b), 0, src) && !MatchAt("/a" + (src + b), 1, src);
    assert !Occurs(src, b) by {
      assert !HasPrefix(b, src) && b[1..] == "x" && !HasPrefix("x", src) && "x"[1..] == [];
    }
    StoreNameOfRecurringRoot(src, a, b);
    assert src + "/" + a + src + b == "/r/a/r/x";
    assert StorePrefix + a + b == "var/lib/containerd/a/x";
  }
}
