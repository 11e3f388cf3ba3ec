/**
 The containerd helper object of cmd/moby/containerd.go: a running daemon
 with a scratch directory, which can be killed, closed (killed and its
 directory removed), snapshotted as a tar stream of its content store, and
 asked to bundle an image reference and its configuration into a tar stream
 after fetching the image.

 The daemon process, the file system and the output writers are outside the
 model: their outcomes are parameters, and ghost fields record what the
 object has done to them.
 */
module Containerd {
  import opened Errors
  import opened Bytes
  import opened Tar
  import opened Paths
  import Naming
  import opened Archiver

  /** A call the object makes on the daemon process or the file system, in order. */
  datatype OsCall =
    | Signal(ok: bool)     // Process.Kill, and whether it reported success
    | Wait                 // cmd.Wait
    | Remove(path: string) // os.RemoveAll

  /** Permission bits `0644` of the two files `Bundle` writes. */
  const FileMode644: int := 0x1A4

  /**
   `tarPrefix(prefix, tw)`, whose code is not part of this model: it either
   fails or writes the directory headers `dirs` leading to the prefix.
   */
  method TarPrefix(tw: Writer, dirs: seq<Header>, ok: bool) returns (err: Status)
    requires tw.Valid() && DirHeaders(dirs)
    modifies tw
    ensures tw.Valid()
    ensures Step(tw.Snapshot(), err) == PrefixStep(old(tw.Snapshot()), dirs, ok)
  {
    if !ok {
      return Failed(PrefixFailed);
    }
    tw.entries := tw.entries + DirEntries(dirs);
    err := Ok;
  }

  /**
   The walk callback of `Store`: refuses a walk error, builds the header from
   the file information, renames it under the store prefix, writes it, and
   copies the file's bytes where the rule says so. As written, the link
   target is the entry's own base name and regular files, symlinks and hard
   links get their bytes copied.
   */
  method VisitEntry(tw: Writer, src: string, v: Visit, rule: Rule) returns (err: Status)
    requires tw.Valid()
    modifies tw
    ensures tw.Valid()
    ensures Step(tw.Snapshot(), err) == VisitStep(old(tw.Snapshot()), src, v, rule)
  {
    if v.walkErr {
      return Failed(WalkFailed);
    }
    var built := FileInfoHeader(v.info, LinkArg(v, rule));
    if built.Failure? {
      return Failed(built.error);
    }
    var name := TrimPrefix(RemoveAll(v.path, src), "/");
    name := Join(StorePrefix, name);
    var hdr := built.value.(name := name);
    err := tw.WriteHeader(hdr, v.headerOk);
    if err.Failed? {
      return;
    }
    if CarriesBody(hdr.typeflag, rule) {
      if !v.openOk {
        return Failed(OpenFailed);
      }
      err := Copy(tw, v.content, v.copyOk);
      if err == Ok && !v.readOk {
        err := Failed(ReadFailed);
      }
    }
  }

  /**
   One file of `Bundle` (lines 222-235 and 236-249): its header, then its
   bytes copied from an in-memory buffer. The output is an in-memory buffer,
   which never refuses a write, so with the size announced right both steps
   succeed and the entry is appended whole.
   */
  method AddFile(tw: Writer, hdr: Header, body: seq<byte>) returns (err: Status)
    requires tw.Valid() && !tw.closed && Pending(tw.Snapshot()) == 0
    requires hdr.size == |body|
    modifies tw
    ensures tw.Valid() && err == Ok
    ensures tw.entries == old(tw.entries) + [Entry(hdr, body)] && !tw.closed
    ensures Pending(tw.Snapshot()) == 0
  {
    HeaderThenBody(tw.Snapshot(), hdr, body, true, true);
    err := tw.WriteHeader(hdr, true);
    if err.Failed? {
      return;
    }
    err := Copy(tw, body, true);
  }

  /**
   `filepath.Walk(src, callback)` over the visits it makes: the callback runs
   on each in turn, and the first error ends the walk and is returned.
   */
  method Walk(tw: Writer, src: string, visits: seq<Visit>, rule: Rule) returns (err: Status)
    requires tw.Valid()
    modifies tw
    ensures tw.Valid()
    ensures Step(tw.Snapshot(), err) == WalkStep(old(tw.Snapshot()), src, visits, rule)
  {
    ghost var start := tw.Snapshot();
    var i := 0;
    while i < |visits|
      invariant 0 <= i <= |visits|
      invariant tw.Valid()
      invariant WalkStep(start, src, visits, rule) == WalkStep(tw.Snapshot(), src, visits[i..], rule)
      decreases |visits| - i
    {
      WalkFrom(tw.Snapshot(), src, visits, i, rule);
      err := VisitEntry(tw, src, visits[i], rule);
      if err.Failed? {
        return;
      }
      i := i + 1;
    }
    assert visits[i..] == [];
    err := Ok;
  }

  class Ctd {
    /** The scratch directory holding the configuration, the socket and the content store. */
    const dir: string
    /** Set once the daemon has been killed and waited for. */
    var shutdown: bool
    /** Whether the daemon process is running. */
    ghost var alive: bool
    /** Whether `dir` is still on disk. */
    ghost var dirExists: bool
    /** The calls made on the process and the file system so far. */
    ghost var calls: seq<OsCall>

    /**
     A shut-down daemon is not running, and the directory is never gone while
     the daemon may still be using it.
     */
    ghost predicate Valid()
      reads this
    {
      (shutdown ==> !alive) && (!dirExists ==> !alive)
    }

    /** The object `NewContainerd` returns: the daemon started in `dir`. */
    constructor (dir: string)
      ensures Valid()
      ensures this.dir == dir && !shutdown
      ensures alive && dirExists && calls == []
    {
      this.dir := dir;
      shutdown := false;
      alive := true;
      dirExists := true;
      calls := [];
    }

    /**
     `Kill`: signals the daemon and, when the signal was delivered, waits for
     it and records the shutdown. A failed signal leaves everything as it was.
     The directory is not touched.
     */
    method Kill(killOk: bool) returns (err: Status)
      requires Valid()
      modifies this
      ensures Valid()
      ensures killOk ==> err == Ok && shutdown && !alive
                         && calls == old(calls) + [Signal(true), Wait]
      ensures !killOk ==> err == Failed(KillFailed) && shutdown == old(shutdown) && alive == old(alive)
                          && calls == old(calls) + [Signal(false)]
      ensures dirExists == old(dirExists)
    {
      calls := calls + [Signal(killOk)];
      if !killOk {
        return Failed(KillFailed);
      }
      calls := calls + [Wait];
      alive := false;
      shutdown := true;
      err := Ok;
    }

    /**
     `Close`: kills the daemon unless it is already shut down, giving up if
     that fails, then removes the directory. Removing a directory that is
     already gone succeeds (`removeOk` is then true), so closing twice is
     harmless, and the second close does not signal the process again.
     */
    method Close(killOk: bool, removeOk: bool) returns (err: Status)
      requires Valid()
      requires !dirExists ==> removeOk
      modifies this
      ensures Valid()
      ensures old(shutdown) ==>
                calls == old(calls) + [Remove(dir)]
                && err == (if removeOk then Ok else Failed(RemoveFailed))
      ensures !old(shutdown) && !killOk ==>
                err == Failed(KillFailed) && calls == old(calls) + [Signal(false)]
                && dirExists == old(dirExists) && alive == old(alive) && !shutdown
      ensures !old(shutdown) && killOk ==>
                calls == old(calls) + [Signal(true), Wait, Remove(dir)]
                && err == (if removeOk then Ok else Failed(RemoveFailed))
      ensures old(shutdown) || killOk ==> shutdown && !alive
      ensures err == Ok ==> shutdown && !alive && !dirExists
      ensures err.Failed? ==> dirExists == old(dirExists)
    {
      if !shutdown {
        err := Kill(killOk);
        if err.Failed? {
          return;
        }
      }
      calls := calls + [Remove(dir)];
      if removeOk {
        dirExists := false;
        err := Ok;
      } else {
        err := Failed(RemoveFailed);
      }
    }

    /**
     `Fetch`: runs the fetch tool against this daemon's socket and content
     store for the normalised image reference. `args` is its command line after
     the program name.
     */
    method Fetch(repo: string, trust: bool, fetchOk: bool) returns (err: Status, ghost args: seq<string>)
      ensures args == ["--address", Join(dir, "containerd.sock"), "--root", Join(dir, "root"),
                       "fetch", Naming.ImageName(repo)]
      ensures err == (if fetchOk then Ok else Failed(FetchFailed))
    {
      args := ["--address", Join(dir, "containerd.sock"), "--root", Join(dir, "root"), "fetch", Naming.ImageName(repo)];
      err := if fetchOk then Ok else Failed(FetchFailed);
    }

    /**
     `Store`: a tar stream of the prefix directories and the walk of
     `dir/root`, each walked path renamed under `var/lib/containerd/`. As
     written, the walk's error is returned and the deferred `Close`'s is
     dropped; corrected, a `Close` error after a good walk is returned.
     */
    method Store(prefixDirs: seq<Header>, prefixOk: bool, visits: seq<Visit>, closeOk: bool, rule: Rule)
      returns (stream: Archive, err: Status)
      requires DirHeaders(prefixDirs)
      ensures Step(stream, err) == StoreResult(Join(dir, "root"), prefixDirs, prefixOk, visits, closeOk, rule)
    {
      var tw := new Writer();
      var src := Join(dir, "root");
      err := TarPrefix(tw, prefixDirs, prefixOk);
      if err == Ok {
        err := Walk(tw, src, visits, rule);
      }
      var closeErr := tw.Close(closeOk);
      if rule == Corrected && err == Ok {
        err := closeErr;
      }
      stream := tw.Snapshot();
    }

    /**
     `Bundle`: writes the prefix directories, `config.json` holding `config`
     and `image` holding the image reference into an in-memory tar stream,
     closes it, and only then fetches the image. The in-memory buffer never
     fails and both bodies match their announced sizes, so the only errors
     are those of `tarPrefix` and of the fetch; on any error the result is
     empty. `trust` is passed through and unused, as in the source.
     */
    method Bundle(path: string, image: string, config: seq<byte>, trust: bool,
                  prefixDirs: seq<Header>, prefixOk: bool, fetchOk: bool)
      returns (out: seq<Entry>, err: Status, ghost fetched: seq<string>, ghost closedFirst: bool)
      requires DirHeaders(prefixDirs)
      ensures err == Ok <==> prefixOk && fetchOk
      ensures !prefixOk ==> err == Failed(PrefixFailed) && fetched == []
      ensures prefixOk ==> fetched == [Naming.ImageName(image)]
      ensures fetched != [] ==> closedFirst
      ensures prefixOk && !fetchOk ==> err == Failed(FetchFailed)
      ensures err.Failed? ==> out == []
      ensures err == Ok ==>
                out == DirEntries(prefixDirs)
                       + [Entry(Header(path + "/" + "config.json", "", FileMode644, |config|, TypeReg), config),
                          Entry(Header(path + "/" + "image", "", FileMode644, |Utf8(image)|, TypeReg), Utf8(image))]
    {
      fetched, closedFirst := [], false;
      var tw := new Writer();
      err := TarPrefix(tw, prefixDirs, prefixOk);
      if err.Failed? {
        return [], err, fetched, closedFirst;
      }
      PrefixIdle(Archive([], false), prefixDirs);
      assert tw.entries == DirEntries(prefixDirs);
      var configHdr := Header(path + "/" + "config.json", "", FileMode644, |config|, TypeReg);
      err := AddFile(tw, configHdr, config);
      if err.Failed? {
        return [], err, fetched, closedFirst;
      }
      var imageBytes := Utf8(image);
      var imageHdr := Header(path + "/" + "image", "", FileMode644, |imageBytes|, TypeReg);
      err := AddFile(tw, imageHdr, imageBytes);
      if err.Failed? {
        return [], err, fetched, closedFirst;
      }
      ghost var written := tw.entries;
      SeqAssoc(DirEntries(prefixDirs), [Entry(configHdr, config)], [Entry(imageHdr, imageBytes)]);
      assert [Entry(configHdr, config)] + [Entry(imageHdr, imageBytes)] == [Entry(configHdr, config), Entry(imageHdr, imageBytes)];
      err := tw.Close(true);
      if err.Failed? {
        return [], err, fetched, closedFirst;
      }
      assert tw.entries == written;
      closedFirst := tw.closed;
      ghost var args;
      err, args := Fetch(image, trust, fetchOk);
      fetched := [args[5]];
      if err.Failed? {
        return [], err, fetched, closedFirst;
      }
      out := tw.entries;
    }
  }
}
