/**
 Image reference normalisation (`ImageName` in cmd/moby/containerd.go).

 A short Docker-style repository name is turned into a fully qualified
 reference by counting its `/`-separated parts and by adding a default tag.
 Go's `strings.SplitN` is modelled on a one-character separator, which is
 all `ImageName` uses.
 */
module Naming {

  /** Number of occurrences of `c` in `s`. */
  function Count(s: string, c: char): nat {
    if s == [] then 0 else (if s[0] == c then 1 else 0) + Count(s[1..], c)
  }

  lemma {:induction false} CountConcat(a: string, b: string, c: char)
    ensures Count(a + b, c) == Count(a, c) + Count(b, c)
  {
    if a == [] {
      assert a + b == b;
    } else {
      assert (a + b)[1..] == a[1..] + b;
      CountConcat(a[1..], b, c);
    }
  }

  lemma {:induction false} CountZero(s: string, c: char)
    ensures Count(s, c) == 0 <==> c !in s
  {
    if s != [] {
      CountZero(s[1..], c);
      assert s == [s[0]] + s[1..];
    }
  }

  function Min(a: int, b: int): int {
    if a <= b then a else b
  }

  /** `strings.Index` for a one-character separator: the first position of `c`, or -1. */
  function IndexOf(s: string, c: char): (i: int)
    ensures -1 <= i < |s|
    ensures i == -1 <==> c !in s
    ensures 0 <= i ==> s[i] == c && c !in s[..i]
  {
    if s == [] then -1
    else if s[0] == c then 0
    else
      var j := IndexOf(s[1..], c);
      assert s == [s[0]] + s[1..];
      if j < 0 then -1 else j + 1
  }

  /** Cutting `s` at the first occurrence `i` of `c` leaves one fewer `c` in the remainder. */
  lemma CountAtFirst(s: string, c: char, i: nat)
    requires i < |s| && s[i] == c && c !in s[..i]
    ensures s == s[..i] + [c] + s[i + 1..]
    ensures Count(s, c) == 1 + Count(s[i + 1..], c)
  {
    assert s == s[..i] + [c] + s[i + 1..];
    CountConcat(s[..i] + [c], s[i + 1..], c);
    CountConcat(s[..i], [c], c);
    CountZero(s[..i], c);
  }

  /** `strings.Join` with a one-character separator. */
  function Join(parts: seq<string>, sep: char): string {
    if |parts| == 0 then ""
    else if |parts| == 1 then parts[0]
    else parts[0] + [sep] + Join(parts[1..], sep)
  }

  /**
   `strings.SplitN(s, sep, n)` for n >= 1: at most n substrings; the last one is
   the unsplit remainder. Splitting is undone by joining, every part but the last
   is free of the separator, and the number of parts is the number of separators
   plus one, capped at n.
   */
  function SplitN(s: string, sep: char, n: nat): (parts: seq<string>)
    requires n >= 1
    ensures |parts| == Min(Count(s, sep) + 1, n)
    ensures Join(parts, sep) == s
    ensures forall k :: 0 <= k < |parts| - 1 ==> sep !in parts[k]
    decreases n
  {
    var i := IndexOf(s, sep);
    if n == 1 || i < 0 then
      CountZero(s, sep);
      [s]
    else
      var rest := SplitN(s[i + 1..], sep, n - 1);
      SplitAtFirst(s, sep, i, n, rest);
      [s[..i]] + rest
  }

  /** Putting a separator-free part in front of the parts of a split. */
  lemma ConsPart(head: string, sep: char, rest: seq<string>)
    requires |rest| >= 1 && sep !in head
    requires forall k :: 0 <= k < |rest| - 1 ==> sep !in rest[k]
    ensures Join([head] + rest, sep) == head + [sep] + Join(rest, sep)
    ensures forall k :: 0 <= k < |[head] + rest| - 1 ==> sep !in ([head] + rest)[k]
  {
    var parts := [head] + rest;
    assert parts[1..] == rest;
    forall k | 0 <= k < |parts| - 1
      ensures sep !in parts[k]
    {
      if k > 0 {
        assert parts[k] == rest[k - 1];
      }
    }
  }

  /** The parts of a split at the first separator `i`: the part before it, then the split of the rest. */
  lemma SplitAtFirst(s: string, sep: char, i: nat, n: nat, rest: seq<string>)
    requires i < |s| && s[i] == sep && sep !in s[..i] && n >= 2
    requires |rest| == Min(Count(s[i + 1..], sep) + 1, n - 1)
    requires Join(rest, sep) == s[i + 1..]
    requires forall k :: 0 <= k < |rest| - 1 ==> sep !in rest[k]
    ensures |[s[..i]] + rest| == Min(Count(s, sep) + 1, n)
    ensures Join([s[..i]] + rest, sep) == s
    ensures forall k :: 0 <= k < |[s[..i]] + rest| - 1 ==> sep !in ([s[..i]] + rest)[k]
  {
    CountAtFirst(s, sep, i);
    ConsPart(s[..i], sep, rest);
  }

  /** The registry/namespace qualification step (lines 126-132). */
  function Qualify(image: string): (r: string)
    ensures r == "docker.io/library/" + image || r == "docker.io/" + image || r == image
  {
    var slash := SplitN(image, '/', 3);
    if |slash| == 1 then "docker.io/library/" + image
    else if |slash| == 2 then "docker.io/" + image
    else image
  }

  /**
   The tag step (lines 134-137): `:latest` is added unless the name splits
   at a colon. It adds no slash and always leaves a colon.
   */
  function Tag(qualified: string): (r: string)
    ensures Count(r, '/') == Count(qualified, '/') && ':' in r
  {
    var colon := SplitN(qualified, ':', 2);
    if |colon| != 2 then
      assert (qualified + ":latest")[|qualified|] == ':';
      CountConcat(qualified, ":latest", '/');
      CountZero(":latest", '/');
      qualified + ":latest"
    else
      CountZero(qualified, ':');
      qualified
  }

  /**
   `ImageName`: qualify the name, then tag it. The result always has at
   least two slashes and a colon, which is what makes a second application
   a no-op.
   */
  function ImageName(image: string): (r: string)
    ensures Count(r, '/') >= 2 && ':' in r
  {
    QualifyHasTwoSlashes(image);
    Tag(Qualify(image))
  }

  /** No slash: `docker.io/library/` is prepended; one slash: `docker.io/`; two or more: unchanged. */
  lemma QualifyByParts(image: string)
    ensures Count(image, '/') == 0 ==> Qualify(image) == "docker.io/library/" + image
    ensures Count(image, '/') == 1 ==> Qualify(image) == "docker.io/" + image
    ensures Count(image, '/') >= 2 ==> Qualify(image) == image
  {
    var slash := SplitN(image, '/', 3);
    assert |slash| == Min(Count(image, '/') + 1, 3);
  }

  /** A string built as `x/y/z` has at least two slashes. */
  lemma TwoSlashes(x: string, y: string, z: string)
    ensures Count(x + "/" + y + "/" + z, '/') >= 2
  {
    CountConcat(x + "/" + y + "/", z, '/');
    CountConcat(x + "/" + y, "/", '/');
    CountConcat(x + "/", y, '/');
    CountConcat(x, "/", '/');
  }

  /** `docker.io/library/` supplies both slashes a bare name lacks. */
  lemma LibraryPrefixSlashes(image: string)
    ensures Count("docker.io/library/" + image, '/') >= 2
  {
    assert "docker.io/library/" + image == "docker.io" + "/" + "library" + "/" + image;
    TwoSlashes("docker.io", "library", image);
  }

  /** `docker.io/` supplies the second slash of a name that has one. */
  lemma RegistryPrefixSlashes(image: string)
    requires Count(image, '/') == 1
    ensures Count("docker.io/" + image, '/') >= 2
  {
    assert "docker.io/" + image == "docker.io" + "/" + image;
    CountConcat("docker.io" + "/", image, '/');
    CountConcat("docker.io", "/", '/');
  }

  lemma QualifyHasTwoSlashes(image: string)
    ensures Count(Qualify(image), '/') >= 2
  {
    QualifyByParts(image);
    LibraryPrefixSlashes(image);
    if Count(image, '/') == 1 {
      RegistryPrefixSlashes(image);
    }
  }

  /**
   Qualification keeps the given name as the tail of the result, and the tag
   step only ever appends `:latest`.
   */
  lemma ImageNameShape(image: string)
    ensures Qualify(image) in {"docker.io/library/" + image, "docker.io/" + image, image}
    ensures ImageName(image) in {Qualify(image), Qualify(image) + ":latest"}
  {
    QualifyByParts(image);
    ImageNameTag(image);
  }

  /** `:latest` is appended exactly when the name has no colon anywhere; otherwise the name is kept. */
  lemma TagByColon(q: string)
    ensures ':' !in q ==> Tag(q) == q + ":latest"
    ensures ':' in q ==> Tag(q) == q
  {
    var colon := SplitN(q, ':', 2);
    assert |colon| == Min(Count(q, ':') + 1, 2);
    CountZero(q, ':');
  }

  /** `:latest` is appended exactly when the qualified name has no colon anywhere. */
  lemma ImageNameTag(image: string)
    ensures ':' !in Qualify(image) ==> ImageName(image) == Qualify(image) + ":latest"
    ensures ':' in Qualify(image) ==> ImageName(image) == Qualify(image)
  {
    TagByColon(Qualify(image));
  }

  /** Normalising an already normalised reference changes nothing. */
  lemma ImageNameIdempotent(image: string)
    ensures ImageName(ImageName(image)) == ImageName(image)
  {
    var r := ImageName(image);
    QualifyByParts(r);
    assert Qualify(r) == r;
    ImageNameTag(r);
  }

  /** A bare name with no slash and no colon gets the library namespace and the default tag. */
  lemma ImageNameBare(name: string)
    requires '/' !in name && ':' !in name
    ensures ImageName(name) == "docker.io/library/" + name + ":latest"
  {
    CountZero(name, '/');
    QualifyByParts(name);
    assert Qualify(name) == "docker.io/library/" + name;
    assert ':' !in "docker.io/library/";
    ImageNameTag(name);
  }

  /** A name with one slash and no colon gets the registry and the default tag. */
  lemma ImageNameOneSlash(image: string)
    requires Count(image, '/') == 1 && ':' !in image
    ensures ImageName(image) == "docker.io/" + image + ":latest"
  {
    QualifyByParts(image);
    NoColonConcat("docker.io/", image);
    ImageNameTag(image);
  }

  /** `x/y` with no slash and no colon in either part gets the registry and the default tag. */
  lemma ImageNameTwoParts(x: string, y: string)
    requires '/' !in x && '/' !in y && ':' !in x && ':' !in y
    ensures ImageName(x + "/" + y) == "docker.io/" + (x + "/" + y) + ":latest"
  {
    OneSlash(x, y);
    NoColonConcat(x, "/");
    NoColonConcat(x + "/", y);
    ImageNameOneSlash(x + "/" + y);
  }

  lemma NoColonConcat(x: string, y: string)
    requires ':' !in x && ':' !in y
    ensures ':' !in x + y
  {
  }

  lemma OneSlash(x: string, y: string)
    requires '/' !in x && '/' !in y
    ensures Count(x + "/" + y, '/') == 1
  {
    CountZero(x, '/');
    CountZero(y, '/');
    CountConcat(x + "/", y, '/');
    CountConcat(x, "/", '/');
  }

  /** A reference with two slashes and a tag is left as it is. */
  lemma ImageNameComplete(image: string)
    requires Count(image, '/') >= 2 && ':' in image
    ensures ImageName(image) == image
  {
    QualifyByParts(image);
    ImageNameTag(image);
  }

  // The examples below take the literal as a parameter fixed by `requires`,
  // with the facts about the literal in small helper lemmas: stated directly
  // on a literal, the recursive `Count` and `SplitN` unfold over every
  // character in one proof, which makes it far costlier for the solver.

  /** The doc comment's example: `alpine` becomes `docker.io/library/alpine:latest`. */
  lemma ImageNameAlpine(image: string)
    requires image == "alpine"
    ensures ImageName(image) == "docker.io/library/alpine:latest"
  {
    AlpineFacts(image);
    ImageNameBare(image);
  }

  lemma AlpineFacts(image: string)
    requires image == "alpine"
    ensures '/' !in image && ':' !in image
    ensures "docker.io/library/" + image + ":latest" == "docker.io/library/alpine:latest"
  {
  }

  /** `library/alpine` gets only the registry, and the default tag. */
  lemma ImageNameLibraryAlpine(image: string)
    requires image == "library/alpine"
    ensures ImageName(image) == "docker.io/library/alpine:latest"
  {
    var ns, name := "library", "alpine";
    LibraryAlpineSplit(image, ns, name);
    ImageNameTwoParts(ns, name);
  }

  lemma LibraryAlpineSplit(image: string, ns: string, name: string)
    requires image == "library/alpine" && ns == "library" && name == "alpine"
    ensures image == ns + "/" + name
    ensures '/' !in ns && '/' !in name && ':' !in ns && ':' !in name
    ensures "docker.io/" + image + ":latest" == "docker.io/library/alpine:latest"
  {
  }

  /** A fully qualified, tagged reference is left as it is. */
  lemma ImageNameQualifiedTagged(image: string)
    requires image == "docker.io/library/alpine:3.5"
    ensures ImageName(image) == image
  {
    QualifiedTaggedFacts(image);
    ImageNameComplete(image);
  }

  lemma QualifiedTaggedFacts(image: string)
    requires image == "docker.io/library/alpine:3.5"
    ensures Count(image, '/') >= 2 && ':' in image
  {
    QualifiedTaggedSplit(image);
    TwoSlashes("docker.io", "library", "alpine:3.5");
    assert ':' in "alpine:3.5";
  }

  lemma QualifiedTaggedSplit(image: string)
    requires image == "docker.io/library/alpine:3.5"
    ensures image == "docker.io" + "/" + "library" + "/" + "alpine:3.5"
  {
  }

  /**
   The colon test looks at the whole qualified name, so a registry port
   suppresses the default tag: `localhost:5000/foo` becomes
   `docker.io/localhost:5000/foo`, with no `:latest`.
   */
  lemma ImageNameRegistryPort(host: string, repo: string)
    requires '/' !in host && '/' !in repo && ':' in host
    ensures ImageName(host + "/" + repo) == "docker.io/" + (host + "/" + repo)
  {
    var image := host + "/" + repo;
    OneSlash(host, repo);
    QualifyByParts(image);
    assert ':' in image;
    assert ':' in "docker.io/" + image;
    ImageNameTag(image);
  }
}
