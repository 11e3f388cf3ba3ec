/**
 The content-store snapshot of `Store` (cmd/moby/containerd.go:164-211) as
 functions on the tar writer's state: the walk callback, the walk that stops
 at the first error, and the whole operation with its deferred `Close`.

 The walk itself is abstract: `filepath.Walk` is represented by the sequence
 of callback invocations it makes, in its order, each with what the file
 system and the writer's sink do on that visit.
 */
module Archiver {
  import opened Errors
  import opened Bytes
  import opened Tar
  import opened Paths

  /** The file type bits of an `os.FileMode`. */
  datatype FileMode =
    | ModeRegular | ModeDir | ModeSymlink | ModeCharDevice | ModeBlockDevice
    | ModeNamedPipe | ModeSocket | ModeIrregular

  /** What `os.Lstat` reports of a walked path: base name, type, permission bits, size. */
  datatype FileInfo = FileInfo(name: string, mode: FileMode, perm: int, size: nat)

  /**
   One invocation of the walk callback: the path and file information the walk
   passes, whether it passes an error, and what the environment does on this
   visit: the target `os.Readlink` would report, whether `os.Open` succeeds,
   the bytes then read, whether reading ends at the end of the file rather
   than with an error (reading a directory, an I/O error), and whether the
   sink accepts the header and the body.
   */
  datatype Visit = Visit(
    path: string, info: FileInfo, walkErr: bool, target: string,
    openOk: bool, content: seq<byte>, readOk: bool, headerOk: bool, copyOk: bool)

  /** The body rule as written in the source, or the corrected one (see the findings). */
  datatype Rule = AsWritten | Corrected

  /**
   `tar.FileInfoHeader(fi, link)`: only a regular file announces body bytes,
   `link` is recorded only for a symlink, and sockets and unknown modes are refused.
   */
  function FileInfoHeader(fi: FileInfo, link: string): (r: Result<Header>)
    ensures r.Failure? <==> fi.mode == ModeSocket || fi.mode == ModeIrregular
    ensures r.Success? ==> r.value.size == (if r.value.typeflag == TypeReg then fi.size else 0)
    ensures r.Success? ==> (r.value.typeflag == TypeReg <==> fi.mode == ModeRegular)
    ensures r.Success? ==> (r.value.typeflag == TypeSymlink <==> fi.mode == ModeSymlink)
    ensures r.Success? ==> r.value.linkname == (if fi.mode == ModeSymlink then link else "")
  {
    match fi.mode
    case ModeRegular => Success(Header(fi.name, "", fi.perm, fi.size, TypeReg))
    case ModeDir => Success(Header(fi.name + "/", "", fi.perm, 0, TypeDir))
    case ModeSymlink => Success(Header(fi.name, link, fi.perm, 0, TypeSymlink))
    case ModeCharDevice => Success(Header(fi.name, "", fi.perm, 0, TypeChar))
    case ModeBlockDevice => Success(Header(fi.name, "", fi.perm, 0, TypeBlock))
    case ModeNamedPipe => Success(Header(fi.name, "", fi.perm, 0, TypeFifo))
    case ModeSocket => Failure(SocketsNotSupported)
    case ModeIrregular => Failure(UnknownFileMode)
  }

  /** Whether the callback copies the file's bytes after the header. */
  predicate CarriesBody(t: TypeFlag, rule: Rule): (b: bool)
    ensures t == TypeReg ==> b
    ensures b ==> t == TypeReg || t == TypeSymlink || t == TypeLink
    ensures rule == Corrected && b ==> t == TypeReg
  {
    match rule
    case AsWritten => t == TypeReg || t == TypeSymlink || t == TypeLink
    case Corrected => t == TypeReg
  }

  /** The `link` argument of `FileInfoHeader`: as written the entry's own name, corrected its target. */
  function LinkArg(v: Visit, rule: Rule): (r: string)
    ensures v.info.mode == ModeSymlink ==> FileInfoHeader(v.info, r).value.linkname == r
    ensures rule == Corrected ==> r == v.target
  {
    match rule
    case AsWritten => v.info.name
    case Corrected => v.target
  }

  /** The header the callback writes: `FileInfoHeader`'s, renamed under the store prefix. */
  function VisitHeader(src: string, v: Visit, rule: Rule): (r: Result<Header>)
    ensures r.Success? ==> r.value.name == StoreName(src, v.path)
  {
    match FileInfoHeader(v.info, LinkArg(v, rule))
    case Failure(e) => Failure(e)
    case Success(h) => Success(h.(name := StoreName(src, v.path)))
  }

  /** The walk callback (lines 177-209) on the writer state `a`. */
  function VisitStep(a: Archive, src: string, v: Visit, rule: Rule): (s: Step)
    requires WellFormed(a)
    ensures WellFormed(s.after)
    ensures Settled(a) ==> Settled(s.after)
  {
    if v.walkErr then Step(a, Failed(WalkFailed))
    else
      match VisitHeader(src, v, rule)
      case Failure(e) => Step(a, Failed(e))
      case Success(h) =>
        var w := HeaderStep(a, h, v.headerOk);
        if w.status.Failed? || !CarriesBody(h.typeflag, rule) then w
        else if !v.openOk then Step(w.after, Failed(OpenFailed))
        else
          // `io.Copy`: the bytes read are written; a read error is returned unless a write failed first.
          var c := CopyStep(w.after, v.content, v.copyOk);
          if c.status == Ok && !v.readOk then Step(c.after, Failed(ReadFailed)) else c
  }

  /** `filepath.Walk` driving the callback: visits in order; the first error ends the walk and is returned. */
  function WalkStep(a: Archive, src: string, visits: seq<Visit>, rule: Rule): (s: Step)
    requires WellFormed(a)
    ensures WellFormed(s.after)
    ensures Settled(a) ==> Settled(s.after)
    decreases |visits|
  {
    if visits == [] then Step(a, Ok)
    else
      var s := VisitStep(a, src, visits[0], rule);
      if s.status.Failed? then s else WalkStep(s.after, src, visits[1..], rule)
  }

  /** The walk from visit `i` on: visit `i`, then, unless it failed, the walk from `i + 1`. */
  lemma WalkFrom(a: Archive, src: string, visits: seq<Visit>, i: nat, rule: Rule)
    requires WellFormed(a) && i < |visits|
    ensures var s := VisitStep(a, src, visits[i], rule);
            WalkStep(a, src, visits[i..], rule)
            == if s.status.Failed? then s else WalkStep(s.after, src, visits[i + 1..], rule)
  {
    assert visits[i..][0] == visits[i] && visits[i..][1..] == visits[i + 1..];
  }

  /** Directory headers with no body, as `tarPrefix` writes them. */
  predicate DirHeaders(dirs: seq<Header>) {
    forall i :: 0 <= i < |dirs| ==> dirs[i].size == 0 && dirs[i].typeflag == TypeDir
  }

  function DirEntries(dirs: seq<Header>): (r: seq<Entry>)
    ensures |r| == |dirs|
    ensures forall i :: 0 <= i < |dirs| ==> r[i] == Entry(dirs[i], [])
  {
    seq(|dirs|, i requires 0 <= i < |dirs| => Entry(dirs[i], []))
  }

  /**
   `tarPrefix(prefix, tw)`, whose code is not part of this model: it either
   fails or appends the directory entries `dirs` it is given.
   */
  function PrefixStep(a: Archive, dirs: seq<Header>, ok: bool): (s: Step)
    requires WellFormed(a) && DirHeaders(dirs)
    ensures WellFormed(s.after)
    ensures Settled(a) && Pending(a) == 0 ==> Settled(s.after)
  {
    if !ok then Step(a, Failed(PrefixFailed))
    else Step(a.(entries := a.entries + DirEntries(dirs)), Ok)
  }

  /** A successful prefix on an open, idle writer leaves it open and idle. */
  lemma PrefixIdle(a: Archive, dirs: seq<Header>)
    requires WellFormed(a) && !a.closed && Pending(a) == 0 && DirHeaders(dirs)
    ensures PrefixStep(a, dirs, true) == Step(Archive(a.entries + DirEntries(dirs), false), Ok)
    ensures Pending(PrefixStep(a, dirs, true).after) == 0
  {
    var r := a.entries + DirEntries(dirs);
    if dirs != [] {
      assert r[|r| - 1] == Entry(dirs[|dirs| - 1], []);
    } else {
      assert r == a.entries;
    }
  }

  /**
   The whole of `Store`: the prefix directories, then the walk under `src`;
   the deferred `Close` runs on every path. As written its error is dropped;
   corrected, it is returned when the walk itself succeeded.
   */
  function StoreResult(src: string, dirs: seq<Header>, prefixOk: bool, visits: seq<Visit>, closeOk: bool, rule: Rule): (s: Step)
    requires DirHeaders(dirs)
    ensures s.after.closed
  {
    var p := PrefixStep(Archive([], false), dirs, prefixOk);
    var w := if p.status.Failed? then p else WalkStep(p.after, src, visits, rule);
    var c := CloseStep(w.after, closeOk);
    Step(c.after, if rule == Corrected && w.status == Ok then c.status else w.status)
  }

  /** A visit on which nothing goes wrong, and whose file holds as many bytes as its header announces. */
  predicate Healthy(src: string, v: Visit, rule: Rule) {
    && !v.walkErr
    && VisitHeader(src, v, rule).Success?
    && v.headerOk
    && (CarriesBody(VisitHeader(src, v, rule).value.typeflag, rule) ==>
          v.openOk && v.readOk && (v.content == [] || v.copyOk)
          && |v.content| == VisitHeader(src, v, rule).value.size)
  }

  /** The entry a visit leaves in the archive when its header can be built. */
  function ExpectedEntry(src: string, v: Visit, rule: Rule): (e: Entry)
    requires VisitHeader(src, v, rule).Success?
    ensures e.hdr.name == StoreName(src, v.path)
  {
    var h := VisitHeader(src, v, rule).value;
    Entry(h, if CarriesBody(h.typeflag, rule) then v.content else [])
  }

  /** Every visit yields a header (`FileInfoHeader` accepts its mode). */
  predicate Named(src: string, visits: seq<Visit>, rule: Rule) {
    forall j :: 0 <= j < |visits| ==> VisitHeader(src, visits[j], rule).Success?
  }

  lemma NamedCons(src: string, visits: seq<Visit>, rule: Rule)
    requires visits != [] && VisitHeader(src, visits[0], rule).Success? && Named(src, visits[1..], rule)
    ensures Named(src, visits, rule)
  {
    forall j | 1 <= j < |visits|
      ensures VisitHeader(src, visits[j], rule).Success?
    {
      assert visits[j] == visits[1..][j - 1];
    }
  }

  function ExpectedEntries(src: string, visits: seq<Visit>, rule: Rule): (es: seq<Entry>)
    requires Named(src, visits, rule)
    ensures |es| == |visits|
    ensures forall j :: 0 <= j < |visits| ==> es[j] == ExpectedEntry(src, visits[j], rule)
    decreases |visits|
  {
    if visits == [] then []
    else
      NamedTail(src, visits, rule);
      var rest := ExpectedEntries(src, visits[1..], rule);
      ExpectedCons(src, visits, rule, rest);
      [ExpectedEntry(src, visits[0], rule)] + rest
  }

  lemma NamedTail(src: string, visits: seq<Visit>, rule: Rule)
    requires visits != [] && Named(src, visits, rule)
    ensures VisitHeader(src, visits[0], rule).Success? && Named(src, visits[1..], rule)
  {
    forall j | 0 <= j < |visits| - 1
      ensures VisitHeader(src, visits[1..][j], rule).Success?
    {
      assert visits[1..][j] == visits[j + 1];
    }
  }

  lemma ExpectedCons(src: string, visits: seq<Visit>, rule: Rule, rest: seq<Entry>)
    requires visits != [] && Named(src, visits, rule)
    requires |rest| == |visits| - 1
    requires forall j :: 0 <= j < |rest| ==> rest[j] == ExpectedEntry(src, visits[1..][j], rule)
    ensures forall j :: 0 <= j < |visits| ==>
              ([ExpectedEntry(src, visits[0], rule)] + rest)[j] == ExpectedEntry(src, visits[j], rule)
  {
    var es := [ExpectedEntry(src, visits[0], rule)] + rest;
    forall j | 1 <= j < |visits|
      ensures es[j] == ExpectedEntry(src, visits[j], rule)
    {
      assert es[j] == rest[j - 1];
      assert visits[1..][j - 1] == visits[j];
    }
  }

  /** Entry `e` is what the visit `v` can have left: its renamed header, and body bytes only where the rule copies them. */
  predicate EntryOf(e: Entry, src: string, v: Visit, rule: Rule) {
    && VisitHeader(src, v, rule).Success?
    && e.hdr == VisitHeader(src, v, rule).value
    && (if CarriesBody(e.hdr.typeflag, rule) then e.body <= v.content else e.body == [])
  }

  /** A healthy visit on an open, idle writer appends exactly its expected entry and leaves the writer idle. */
  lemma VisitHealthy(a: Archive, src: string, v: Visit, rule: Rule)
    requires WellFormed(a) && !a.closed && Pending(a) == 0
    requires Healthy(src, v, rule)
    ensures VisitStep(a, src, v, rule) == Step(Archive(a.entries + [ExpectedEntry(src, v, rule)], false), Ok)
    ensures Pending(VisitStep(a, src, v, rule).after) == 0
  {
    var h := VisitHeader(src, v, rule).value;
    if CarriesBody(h.typeflag, rule) {
      HeaderThenBody(a, h, v.content, v.headerOk, v.copyOk);
    } else {
      assert h.typeflag != TypeReg;
    }
  }

  /** A walk of healthy visits succeeds and archives every visit in order. */
  lemma {:induction false} WalkHealthy(a: Archive, src: string, visits: seq<Visit>, rule: Rule)
    requires WellFormed(a) && !a.closed && Pending(a) == 0
    requires forall j :: 0 <= j < |visits| ==> Healthy(src, visits[j], rule)
    ensures Named(src, visits, rule)
    ensures WalkStep(a, src, visits, rule)
            == Step(Archive(a.entries + ExpectedEntries(src, visits, rule), false), Ok)
    ensures Pending(WalkStep(a, src, visits, rule).after) == 0
    decreases |visits|
  {
    if visits == [] {
      assert a.entries + [] == a.entries;
    } else {
      VisitHealthy(a, src, visits[0], rule);
      var s := VisitStep(a, src, visits[0], rule);
      assert WalkStep(a, src, visits, rule) == WalkStep(s.after, src, visits[1..], rule);
      assert forall j :: 0 <= j < |visits[1..]| ==> Healthy(src, visits[1..][j], rule);
      WalkHealthy(s.after, src, visits[1..], rule);
      NamedCons(src, visits, rule);
      assert ExpectedEntries(src, visits, rule)
             == [ExpectedEntry(src, visits[0], rule)] + ExpectedEntries(src, visits[1..], rule);
      SeqAssoc(a.entries, [ExpectedEntry(src, visits[0], rule)], ExpectedEntries(src, visits[1..], rule));
    }
  }

  /** A successful walk built every header and archived every visit, with exactly the file's bytes as body where the rule copies. */
  lemma {:induction false} WalkOkArchivesAll(a: Archive, src: string, visits: seq<Visit>, rule: Rule)
    requires WellFormed(a)
    requires WalkStep(a, src, visits, rule).status == Ok
    ensures Named(src, visits, rule)
    ensures WalkStep(a, src, visits, rule).after.entries == a.entries + ExpectedEntries(src, visits, rule)
    ensures WalkStep(a, src, visits, rule).after.closed == a.closed
    decreases |visits|
  {
    if visits == [] {
      assert a.entries + [] == a.entries;
    } else {
      var s := VisitStep(a, src, visits[0], rule);
      VisitOk(a, src, visits[0], rule);
      assert WalkStep(a, src, visits, rule) == WalkStep(s.after, src, visits[1..], rule);
      WalkOkArchivesAll(s.after, src, visits[1..], rule);
      NamedCons(src, visits, rule);
      assert ExpectedEntries(src, visits, rule)
             == [ExpectedEntry(src, visits[0], rule)] + ExpectedEntries(src, visits[1..], rule);
      SeqAssoc(a.entries, [ExpectedEntry(src, visits[0], rule)], ExpectedEntries(src, visits[1..], rule));
    }
  }

  /** A visit that returns no error built its header and appended exactly its expected entry. */
  lemma VisitOk(a: Archive, src: string, v: Visit, rule: Rule)
    requires WellFormed(a)
    requires VisitStep(a, src, v, rule).status == Ok
    ensures VisitHeader(src, v, rule).Success?
    ensures VisitStep(a, src, v, rule).after == Archive(a.entries + [ExpectedEntry(src, v, rule)], a.closed)
  {
    var s := VisitStep(a, src, v, rule);
    var h := VisitHeader(src, v, rule).value;
    var w := HeaderStep(a, h, v.headerOk);
    assert w.after.entries == a.entries + [Entry(h, [])];
    if CarriesBody(h.typeflag, rule) && v.content != [] {
      assert s.after == AppendBody(w.after, v.content);
      assert [] + v.content == v.content;
    }
  }

  /** The first error ends the walk: visits after a failing prefix are never consulted. */
  lemma {:induction false} WalkStopsAtFirstError(a: Archive, src: string, visits: seq<Visit>, more: seq<Visit>, rule: Rule)
    requires WellFormed(a)
    requires WalkStep(a, src, visits, rule).status.Failed?
    ensures WalkStep(a, src, visits + more, rule) == WalkStep(a, src, visits, rule)
    decreases |visits|
  {
    assert visits != [];
    assert (visits + more)[0] == visits[0];
    assert (visits + more)[1..] == visits[1..] + more;
    var s := VisitStep(a, src, visits[0], rule);
    if !s.status.Failed? {
      WalkStopsAtFirstError(s.after, src, visits[1..], more, rule);
    }
  }

  /**
   Whatever the outcome, the walk only appends, at most one entry per visit,
   each one renamed from its visit's path and holding body bytes only where the
   rule copies them, and then no more than the file's own bytes.
   */
  lemma {:induction false} WalkAppendsEntriesOf(a: Archive, src: string, visits: seq<Visit>, rule: Rule)
    requires WellFormed(a)
    ensures Extends(a.entries, WalkStep(a, src, visits, rule).after.entries, src, visits, rule)
    decreases |visits|
  {
    if visits != [] {
      var s := VisitStep(a, src, visits[0], rule);
      VisitAppendsEntryOf(a, src, visits[0], rule);
      if !s.status.Failed? {
        WalkAppendsEntriesOf(s.after, src, visits[1..], rule);
        ExtendsCons(a.entries, s.after.entries, WalkStep(s.after, src, visits[1..], rule).after.entries, src, visits, rule);
      } else {
        ExtendsLast(a.entries, s.after.entries, src, visits, rule);
      }
    }
  }

  /** Each of `es` is the entry of the visit at the same position. */
  predicate EntriesOf(es: seq<Entry>, src: string, visits: seq<Visit>, rule: Rule) {
    |es| <= |visits| && forall j :: 0 <= j < |es| ==> EntryOf(es[j], src, visits[j], rule)
  }

  /** `r` keeps `a` and continues it with entries of `visits`, position by position. */
  predicate Extends(a: seq<Entry>, r: seq<Entry>, src: string, visits: seq<Visit>, rule: Rule) {
    |a| <= |r| && r[..|a|] == a && EntriesOf(r[|a|..], src, visits, rule)
  }

  lemma ExtendsCons(a: seq<Entry>, m: seq<Entry>, r: seq<Entry>, src: string, visits: seq<Visit>, rule: Rule)
    requires visits != []
    requires |m| == |a| + 1 && m[..|a|] == a && EntryOf(m[|a|], src, visits[0], rule)
    requires Extends(m, r, src, visits[1..], rule)
    ensures Extends(a, r, src, visits, rule)
  {
    assert r[..|a|] == m[..|a|];
    var es := r[|a|..];
    forall j | 0 <= j < |es|
      ensures EntryOf(es[j], src, visits[j], rule)
    {
      if j > 0 {
        assert es[j] == r[|m|..][j - 1];
        assert visits[j] == visits[1..][j - 1];
      }
    }
  }

  lemma ExtendsLast(a: seq<Entry>, r: seq<Entry>, src: string, visits: seq<Visit>, rule: Rule)
    requires visits != []
    requires |a| <= |r| <= |a| + 1 && r[..|a|] == a
    requires |r| > |a| ==> EntryOf(r[|a|], src, visits[0], rule)
    ensures Extends(a, r, src, visits, rule)
  {
    var es := r[|a|..];
    if |r| > |a| {
      assert es[0] == r[|a|];
    }
    assert |es| <= 1;
  }

  lemma VisitAppendsEntryOf(a: Archive, src: string, v: Visit, rule: Rule)
    requires WellFormed(a)
    ensures var r := VisitStep(a, src, v, rule).after;
            && |a.entries| <= |r.entries| <= |a.entries| + 1
            && r.entries[..|a.entries|] == a.entries
            && (|r.entries| > |a.entries| ==> EntryOf(r.entries[|a.entries|], src, v, rule))
            && (VisitStep(a, src, v, rule).status == Ok ==> |r.entries| == |a.entries| + 1)
  {
    var r := VisitStep(a, src, v, rule).after;
    if !v.walkErr && VisitHeader(src, v, rule).Success? {
      var h := VisitHeader(src, v, rule).value;
      var w := HeaderStep(a, h, v.headerOk);
      if w.status == Ok {
        assert w.after == Archive(a.entries + [Entry(h, [])], a.closed);
        if CarriesBody(h.typeflag, rule) && v.openOk {
          CopyIntoFresh(a.entries, h, v.content, v.copyOk, a.closed);
          assert r.entries == CopyStep(w.after, v.content, v.copyOk).after.entries;
        }
      }
    }
  }

  /** Copying into a freshly written entry only fills that entry, and with a prefix of the data. */
  lemma CopyIntoFresh(p: seq<Entry>, h: Header, data: seq<byte>, sinkOk: bool, closed: bool)
    requires WellFormed(Archive(p + [Entry(h, [])], closed))
    ensures var r := CopyStep(Archive(p + [Entry(h, [])], closed), data, sinkOk).after;
            && |r.entries| == |p| + 1 && r.entries[..|p|] == p
            && r.entries[|p|].hdr == h && r.entries[|p|].body <= data
  {
    var b := Archive(p + [Entry(h, [])], closed);
    var r := CopyStep(b, data, sinkOk).after;
    if r != b {
      var fits := Fitting(b, data);
      assert r == AppendBody(b, fits);
      assert r.entries == p + [Entry(h, [] + fits)];
    }
  }

  /** A symlink visit whose header and sink cooperate: the situation of the findings. */
  predicate SymlinkVisit(v: Visit) {
    !v.walkErr && v.info.mode == ModeSymlink && v.headerOk
  }

  /**
   As written, a symlink is archived under its own base name as link target,
   and copying the bytes `os.Open` reads through it overruns the zero-size
   symlink entry: the visit fails with "write too long" and the walk ends there.
   */
  lemma SymlinkAsWritten(a: Archive, src: string, v: Visit, rest: seq<Visit>)
    requires WellFormed(a) && !a.closed && Pending(a) == 0
    requires SymlinkVisit(v) && v.openOk && v.content != []
    ensures var s := VisitStep(a, src, v, AsWritten);
            && s.status == Failed(WriteTooLong)
            && s.after.entries
               == a.entries + [Entry(Header(StoreName(src, v.path), v.info.name, v.info.perm, 0, TypeSymlink), [])]
    ensures WalkStep(a, src, [v] + rest, AsWritten) == VisitStep(a, src, v, AsWritten)
  {
    var h := VisitHeader(src, v, AsWritten).value;
    var w := HeaderStep(a, h, v.headerOk);
    assert w.after == Archive(a.entries + [Entry(h, [])], false);
    OverlongBody(w.after, v.content, v.copyOk);
    assert v.content[..0] == [];
    assert AppendBody(w.after, []).entries == a.entries + [Entry(h, [] + [])];
    assert ([v] + rest)[0] == v;
  }

  /**
   As written, even where archiving goes through (the symlink points at an
   empty file), the entry names the symlink itself as its target.
   */
  lemma SymlinkOwnName(a: Archive, src: string, v: Visit)
    requires WellFormed(a) && !a.closed && Pending(a) == 0
    requires SymlinkVisit(v) && v.openOk && v.content == [] && v.readOk
    ensures VisitStep(a, src, v, AsWritten)
            == Step(Archive(a.entries
                 + [Entry(Header(StoreName(src, v.path), v.info.name, v.info.perm, 0, TypeSymlink), [])], false), Ok)
  {
    VisitHealthy(a, src, v, AsWritten);
  }

  /**
   As written, a symlink to a directory (`os.Open` follows it, and the first
   read fails) is archived as a header and then ends the walk with the read error.
   */
  lemma SymlinkToDirectory(a: Archive, src: string, v: Visit, rest: seq<Visit>)
    requires WellFormed(a) && !a.closed && Pending(a) == 0
    requires SymlinkVisit(v) && v.openOk && v.content == [] && !v.readOk
    ensures VisitStep(a, src, v, AsWritten)
            == Step(Archive(a.entries
                 + [Entry(Header(StoreName(src, v.path), v.info.name, v.info.perm, 0, TypeSymlink), [])], false),
                 Failed(ReadFailed))
    ensures WalkStep(a, src, [v] + rest, AsWritten) == VisitStep(a, src, v, AsWritten)
  {
    assert ([v] + rest)[0] == v;
  }

  /**
   Corrected, a symlink is archived header-only, pointing at its target,
   whatever the bytes behind it; the walk goes on.
   */
  lemma SymlinkCorrected(a: Archive, src: string, v: Visit)
    requires WellFormed(a) && !a.closed && Pending(a) == 0
    requires SymlinkVisit(v)
    ensures Healthy(src, v, Corrected)
    ensures VisitStep(a, src, v, Corrected)
            == Step(Archive(a.entries
                 + [Entry(Header(StoreName(src, v.path), v.target, v.info.perm, 0, TypeSymlink), [])], false), Ok)
  {
    VisitHealthy(a, src, v, Corrected);
  }

  /** With a working prefix and healthy visits, `Store` archives the prefix and every visit in order, and closes the stream. */
  lemma StoreHealthy(src: string, dirs: seq<Header>, visits: seq<Visit>, closeOk: bool, rule: Rule)
    requires DirHeaders(dirs)
    requires forall j :: 0 <= j < |visits| ==> Healthy(src, visits[j], rule)
    requires rule == Corrected ==> closeOk
    ensures Named(src, visits, rule)
    ensures StoreResult(src, dirs, true, visits, closeOk, rule)
            == Step(Archive(DirEntries(dirs) + ExpectedEntries(src, visits, rule), true), Ok)
  {
    PrefixIdle(Archive([], false), dirs);
    assert [] + DirEntries(dirs) == DirEntries(dirs);
    WalkHealthy(Archive(DirEntries(dirs), false), src, visits, rule);
  }

  /** Whenever `Store` reports success, the stream holds the prefix and exactly the expected entry of every visit. */
  lemma StoreOkArchivesAll(src: string, dirs: seq<Header>, prefixOk: bool, visits: seq<Visit>, closeOk: bool, rule: Rule)
    requires DirHeaders(dirs)
    requires StoreResult(src, dirs, prefixOk, visits, closeOk, rule).status == Ok
    ensures prefixOk
    ensures Named(src, visits, rule)
    ensures StoreResult(src, dirs, prefixOk, visits, closeOk, rule).after
            == Archive(DirEntries(dirs) + ExpectedEntries(src, visits, rule), true)
  {
    assert [] + DirEntries(dirs) == DirEntries(dirs);
    var p := PrefixStep(Archive([], false), dirs, prefixOk);
    WalkOkArchivesAll(p.after, src, visits, rule);
  }

  /**
   Corrected, success also means the deferred `Close` succeeded, so every
   entry holds all the bytes its header announced and the trailer was written.
   */
  lemma StoreCorrectedComplete(src: string, dirs: seq<Header>, prefixOk: bool, visits: seq<Visit>, closeOk: bool)
    requires DirHeaders(dirs)
    requires StoreResult(src, dirs, prefixOk, visits, closeOk, Corrected).status == Ok
    ensures closeOk
    ensures Complete(StoreResult(src, dirs, prefixOk, visits, closeOk, Corrected).after)
  {
    var p := PrefixStep(Archive([], false), dirs, prefixOk);
    var w := WalkStep(p.after, src, visits, Corrected);
    WalkOkArchivesAll(p.after, src, visits, Corrected);
    assert !w.after.closed;
    SettledIdle(w.after);
  }

  /**
   As written, a trailer the sink refuses goes unreported: `Store` returns
   success although its deferred `Close` failed; corrected, the failure is returned.
   */
  lemma StoreDropsCloseError(src: string, dirs: seq<Header>, visits: seq<Visit>)
    requires DirHeaders(dirs)
    requires forall j :: 0 <= j < |visits| ==> Healthy(src, visits[j], AsWritten)
    requires forall j :: 0 <= j < |visits| ==> Healthy(src, visits[j], Corrected)
    ensures StoreResult(src, dirs, true, visits, false, AsWritten).status == Ok
    ensures StoreResult(src, dirs, true, visits, false, Corrected).status == Failed(SinkFailed)
  {
    PrefixIdle(Archive([], false), dirs);
    assert [] + DirEntries(dirs) == DirEntries(dirs);
    WalkHealthy(Archive(DirEntries(dirs), false), src, visits, AsWritten);
    WalkHealthy(Archive(DirEntries(dirs), false), src, visits, Corrected);
  }
}
