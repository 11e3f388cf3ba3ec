# containerd helper of `moby`: a Dafny model

This project models the containerd helper of the `moby` tool (cmd/moby/containerd.go).
The helper does four things:

- It normalises short Docker image names into fully qualified references (`ImageName`).
- It keeps a handle on a running `containerd` daemon and its scratch directory. `Kill` stops the daemon. `Close` kills the daemon if that is still needed and then removes the directory.
- It snapshots the daemon's content store as a tar stream (`Store`). Every walked path is renamed under `var/lib/containerd/`.
- It bundles an image reference and its configuration into an in-memory tar stream, then fetches the image (`Bundle`).

The modules:

- `Naming`: `ImageName` as a pure function over strings. It uses a model of Go's `strings.SplitN` for a one-character separator.
- `Paths`: the string and path helpers that rename a walked file. These are `strings.Replace` with an empty replacement, `strings.TrimPrefix` and a simplified `filepath.Join`.
- `Bytes`: bytes, and the UTF-8 bytes of a Go string.
- `Tar`: the part of Go's `archive/tar` writer that the helper relies on, as it behaves from Go 1.10 on: a write is cut to the bytes still owed before the sink is called, and `Close` closes the writer even when bytes are missing.
  - The stream is an append-only sequence of entries (header and body bytes).
  - The writer keeps size bookkeeping. A header announces its body size. Bytes beyond that size fail with "write too long". A new header or `Close` while bytes are still owed fails with "missed writing".
  - The writer is a class. Its methods are proved against pure step functions.
- `Archiver`: `Store`'s walk callback and walk as functions of the writer state, plus the whole of `Store`. It also holds the lemmas about names, bodies, success and the first error.
- `Containerd`: the `ctd` object as a class.
  - It has the `shutdown` field.
  - Ghost state says whether the daemon is alive, whether the directory exists, and which calls were made on the process and the file system.
  - Its methods are `Kill`, `Close`, `Fetch`, `Store` (a loop over the walk's callback invocations) and `Bundle`.

Some outcomes are not decided by the code itself. These are the results of `Process.Kill`, `os.RemoveAll`, `os.Open`, the reads of an opened file, the output writer, `tarPrefix`, the fetch tool, and what `filepath.Walk` hands the callback. They are all parameters.

Two facts about the code shape the model:

- `Store` closes the writer on every path, but it drops the error of that deferred `Close` (see Findings).
- A bundle holds `tarPrefix`'s directory entries ahead of its two files.

## Model

| member | source | states |
|---|---|---|
| Naming.SplitN | cmd/moby/containerd.go:126 | `strings.SplitN` with n >= 1: the number of parts is the number of separators plus one, capped at n; joining the parts gives back the input; no part but the last contains the separator |
| Naming.ImageName | cmd/moby/containerd.go:125-140 | every normalised reference has at least two slashes and a colon |
| Naming.Qualify | cmd/moby/containerd.go:126-132 | the qualified name is the input with `docker.io/library/`, `docker.io/` or nothing in front |
| Naming.QualifyByParts | cmd/moby/containerd.go:126-132 | no slash: `docker.io/library/` is prepended; one slash: `docker.io/`; two or more: the name is unchanged |
| Naming.QualifyHasTwoSlashes | cmd/moby/containerd.go:126-132 | after qualification there are always at least two slashes |
| Naming.ImageNameTag | cmd/moby/containerd.go:134-139 | `:latest` is appended exactly when the qualified name has no colon anywhere; otherwise the result is the qualified name |
| Naming.ImageNameShape | cmd/moby/containerd.go:125-140 | the input is the tail of the qualified name, and the result is that name with or without `:latest` |
| Naming.ImageNameIdempotent | cmd/moby/containerd.go:125-140 | normalising a normalised reference changes nothing |
| Naming.ImageNameBare | cmd/moby/containerd.go:126-137 | a name without slash or colon becomes `docker.io/library/<name>:latest` |
| Naming.ImageNameOneSlash | cmd/moby/containerd.go:126-137 | a name with one slash and no colon becomes `docker.io/<name>:latest` |
| Naming.ImageNameComplete | cmd/moby/containerd.go:126-139 | a name with two slashes and a colon is returned unchanged |
| Naming.ImageNameAlpine | cmd/moby/containerd.go:123-140 | the doc comment's example: `alpine` gives `docker.io/library/alpine:latest` |
| Naming.ImageNameLibraryAlpine | cmd/moby/containerd.go:125-140 | `library/alpine` gives `docker.io/library/alpine:latest` |
| Naming.ImageNameQualifiedTagged | cmd/moby/containerd.go:125-140 | `docker.io/library/alpine:3.5` is left unchanged |
| Naming.ImageNameRegistryPort | cmd/moby/containerd.go:126-137 | a name `host/repo` with one slash whose host part has a colon (a registry port, as in `localhost:5000/foo`) gets `docker.io/` in front and no `:latest`: the port's colon suppresses the default tag |
| Naming.ImageNameTwoParts | cmd/moby/containerd.go:126-137 | a name `x/y` with no colon becomes `docker.io/x/y:latest` |
| Naming.Tag | cmd/moby/containerd.go:134-137 | the tagging step never changes the number of slashes and always leaves a colon in the name |
| Naming.TagByColon | cmd/moby/containerd.go:134-139 | the tagging step appends `:latest` exactly when the name has no colon, and otherwise returns the name unchanged |
| Paths.RemoveAll | cmd/moby/containerd.go:188 | deleting every occurrence of `src` never makes the path longer |
| Paths.TrimPrefix | cmd/moby/containerd.go:188 | one leading separator is removed when present, and the path is otherwise unchanged |
| Paths.RemoveAllAbsent | cmd/moby/containerd.go:188 | a path in which `src` does not occur is left unchanged |
| Paths.RemoveAllLeading | cmd/moby/containerd.go:188 | a leading `src` is deleted and the scan goes on after it |
| Paths.JoinUnderPrefix | cmd/moby/containerd.go:190 | joining a non-empty name under the store prefix is concatenation; an empty name gives `var/lib/containerd` |
| Paths.StoreNameOfRoot | cmd/moby/containerd.go:186-190 | the walk root itself is archived as `var/lib/containerd` |
| Paths.StoreNameOfChild | cmd/moby/containerd.go:186-190 | `src/rel` is archived as `var/lib/containerd/rel` when `src` does not occur again in `/rel` |
| Paths.Join | cmd/moby/containerd.go:150-151 | an empty directory gives the name itself; otherwise exactly one separator joins them, and a trailing slash of the directory is not doubled |
| Paths.StoreName | cmd/moby/containerd.go:165-190 | every archive name starts with `var/lib/containerd` |
| Paths.RemoveAllSkip | cmd/moby/containerd.go:188 | a stretch in which no occurrence of `src` starts is kept, and the scan resumes after it |
| Paths.StoreNameOfRecurringRoot | cmd/moby/containerd.go:186-190 | every occurrence of `src` is deleted, not only the leading one: `src/a` + `src` + `b` is archived as `var/lib/containerd/a` + `b` when `src` occurs nowhere else |
| Paths.NestedRootMerged | cmd/moby/containerd.go:186-190 | under the root `/r`, the path `/r/a/r/x` is archived as `var/lib/containerd/a/x`: a directory named like the root is merged into its parent |
| Bytes.Utf8 | cmd/moby/containerd.go:239 | the byte length of a string is at least its length in characters, and an ASCII string is its own byte sequence |
| Tar.HeaderStep | cmd/moby/containerd.go:192-194 | writing a header keeps every entry within its announced size, and all entries but the current one complete |
| Tar.WriteStep | cmd/moby/containerd.go:203-205 | the data is cut to the bytes still owed and only a non-empty remainder reaches the sink; a body write keeps every entry within its announced size, and all entries but the current one complete |
| Tar.CopyStep | cmd/moby/containerd.go:203-205 | copying a body keeps every entry within its announced size, and all entries but the current one complete |
| Tar.CloseStep | cmd/moby/containerd.go:250-253 | closing keeps every entry within its announced size, and all entries but the current one complete |
| Tar.HeaderThenBody | cmd/moby/containerd.go:222-235 | on an open, idle writer, a header and exactly its announced body both succeed iff the sink accepts them; the entry is then appended and the writer is idle again |
| Tar.OverlongBody | cmd/moby/containerd.go:203-205 | writing more than announced keeps only the announced bytes and fails with "write too long"; when nothing is owed, this holds whatever the sink does |
| Tar.Writer.constructor | cmd/moby/containerd.go:167 | a new writer is open and holds no entries |
| Tar.Writer.WriteHeader | cmd/moby/containerd.go:192-194 | updates the writer exactly as the header step says and keeps its invariant |
| Tar.Writer.Write | cmd/moby/containerd.go:203-205 | updates the writer exactly as the write step says and keeps its invariant |
| Tar.Writer.Close | cmd/moby/containerd.go:250-253 | updates the writer exactly as the close step says and keeps its invariant |
| Tar.Copy | cmd/moby/containerd.go:203-205 | copies a file's bytes exactly as the copy step says, with no write for an empty source |
| Archiver.FileInfoHeader | cmd/moby/containerd.go:182-185 | only regular files announce a body, sockets and unknown modes are refused, and the link argument is recorded only for symlinks |
| Archiver.CarriesBody | cmd/moby/containerd.go:196-197 | regular files always have their bytes copied; only regular files, symlinks and hard links ever do; corrected, only regular files |
| Archiver.LinkArg | cmd/moby/containerd.go:182 | the argument passed as `link` is what a symlink's header records as its target; corrected, it is the target read from the link |
| Archiver.VisitHeader | cmd/moby/containerd.go:182-190 | the header of a visit carries the path renamed under the store prefix |
| Archiver.VisitStep | cmd/moby/containerd.go:177-209 | one callback invocation, in which a failed read of the opened file is returned unless a write failed first, keeps every entry within its announced size and all entries but the current one complete |
| Archiver.WalkStep | cmd/moby/containerd.go:177-210 | the walk keeps every entry within its announced size and all entries but the current one complete |
| Archiver.PrefixStep | cmd/moby/containerd.go:172-175 | the prefix directories keep the archive well formed and settled |
| Archiver.StoreResult | cmd/moby/containerd.go:164-211 | `Close` is called on every path, so the writer `Store` leaves behind is marked closed |
| Archiver.PrefixIdle | cmd/moby/containerd.go:172-175 | a successful prefix leaves the writer open and owing no bytes |
| Archiver.VisitHealthy | cmd/moby/containerd.go:177-209 | a visit with no failure (the reads of its file included) and a file of its announced size appends exactly its expected entry and leaves the writer idle |
| Archiver.VisitOk | cmd/moby/containerd.go:177-209 | a callback that returns no error built its header and appended exactly the expected entry |
| Archiver.WalkHealthy | cmd/moby/containerd.go:177-210 | a walk of healthy visits succeeds and archives every visit, in order, with its renamed header and, for the body types only, its bytes |
| Archiver.WalkOkArchivesAll | cmd/moby/containerd.go:177-210 | a walk that reports success has archived exactly the expected entry of every visit, in order |
| Archiver.WalkStopsAtFirstError | cmd/moby/containerd.go:177-184 | after the first error no further visit is consulted: extra visits change neither the stream nor the error |
| Archiver.WalkAppendsEntriesOf | cmd/moby/containerd.go:186-209 | on every outcome the walk only appends, at most one entry per visit, each named from its visit's path, with body bytes only for the body types, and never more than the file's own bytes |
| Archiver.VisitAppendsEntryOf | cmd/moby/containerd.go:186-209 | one visit appends at most one entry, made from that visit, and exactly one when it succeeds |
| Archiver.StoreHealthy | cmd/moby/containerd.go:164-211 | with a working prefix and healthy visits, `Store` succeeds with the prefix entries followed by every visit's entry, and closes the stream |
| Archiver.StoreOkArchivesAll | cmd/moby/containerd.go:164-211 | whenever `Store` reports success, the prefix succeeded and the closed stream holds the prefix and exactly the expected entry of every visit |
| Archiver.StoreCorrectedComplete | cmd/moby/containerd.go:168 | with the deferred close checked, success means the close succeeded and every entry holds all the bytes its header announced |
| Archiver.StoreDropsCloseError | cmd/moby/containerd.go:168 | as written, `Store` reports success although the sink refused the trailer at close; with the close checked, the failure is reported |
| Archiver.SymlinkAsWritten | cmd/moby/containerd.go:196-206 | as written, a symlink whose target has bytes fails with "write too long" whatever the sink does, ends the walk, and leaves a header naming the link itself as its target |
| Archiver.SymlinkToDirectory | cmd/moby/containerd.go:196-206 | as written, a symlink to a directory is opened through the link, its first read fails, and the walk ends with that read error after the symlink's header |
| Archiver.SymlinkOwnName | cmd/moby/containerd.go:182 | as written, a symlink is archived with its own base name as link target |
| Archiver.SymlinkCorrected | cmd/moby/containerd.go:182-209 | corrected, a symlink is archived header-only with its real target, whatever the bytes behind it, and the walk goes on |
| Containerd.TarPrefix | cmd/moby/containerd.go:172-175 | writes the prefix directories or fails, exactly as the prefix step says |
| Containerd.Walk | cmd/moby/containerd.go:177-210 | the loop over the callback invocations stops at the first error and leaves exactly the stream and error of the walk step |
| Containerd.AddFile | cmd/moby/containerd.go:222-235 | on an open, idle writer whose sink accepts everything, a header and exactly its announced body append one complete entry and leave the writer idle |
| Containerd.VisitEntry | cmd/moby/containerd.go:177-209 | the callback updates the writer and returns the error exactly as the visit step says |
| Containerd.Ctd.constructor | cmd/moby/containerd.go:83-88 | a fresh handle: the daemon is running, its directory exists, it is not shut down, and no calls have been made |
| Containerd.Ctd.Kill | cmd/moby/containerd.go:93-104 | a delivered signal is followed by a wait and sets `shutdown`; a failed signal returns the error and changes nothing else; the directory is never touched |
| Containerd.Ctd.Close | cmd/moby/containerd.go:107-121 | kills only when not shut down; a failed kill is returned and nothing is removed; otherwise the result is exactly that of removing the directory, after the kill, and the daemon is shut down and dead even when the removal fails; on success the directory is also gone |
| Containerd.Ctd.Fetch | cmd/moby/containerd.go:143-161 | the fetch tool is asked for the normalised reference under this daemon's socket and `root` directory; the result is its outcome |
| Containerd.Ctd.Store | cmd/moby/containerd.go:164-211 | the loop over the walk produces exactly the stream and error that the whole-of-`Store` function specifies |
| Containerd.Ctd.Bundle | cmd/moby/containerd.go:214-259 | on success: the prefix entries, then `path/config.json` (mode 0644, size and content `config`), then `path/image` (mode 0644, the raw bytes of the unnormalised image); on any error: an empty result; the only errors are those of the prefix and of the fetch; the fetch happens only once the stream is closed, and only then is the image asked for under its normalised name |

## Left out

- `NewContainerd` (cmd/moby/containerd.go:52-89) is left out: the temporary directory, the configuration template, looking up the binary and starting the daemon are I/O. `Containerd.Ctd.constructor` gives the state of the handle it returns.
- `Fetch` runs a subprocess. Its lookup failure and its exit status together become one success flag. Its output wiring is not modelled. The `trust` flag is accepted and unused, as in the code.
- The tar byte encoding is not modelled: header serialisation, format selection (USTAR, PAX, GNU), padding and the end-of-archive blocks. The writer's sticky error is not modelled either: both callers stop at the first error of a write. Header validation errors are not modelled.
- Tar.WriteStep: a sink that fails takes none of the bytes; a sink that accepts part of them before failing is not modelled.
- Archiver.FileInfoHeader: the header mode holds only the permission bits. The setuid, setgid and sticky bits, times, owner names and ids are not modelled.
- Archiver.StoreResult: after a sink failure, Go's `Close` returns that stored error at once and writes no trailer; the model's close step instead tries the trailer. No status `Store` returns changes, because both rules ignore the close result after a failed walk.
- `filepath.Walk` (traversal order, `Lstat`, reading directories) is represented by the sequence of callback invocations it makes, each with the error it hands over.
- `io.Copy` is modelled as one write of the whole file. Copying in chunks leaves the same entries and the same error. The deferred `f.Close()` of each opened file is not modelled, because its result is discarded.
- Paths.Join: `filepath.Join`'s cleaning of `.`, `..` and doubled separators inside the name is not modelled. Only the two joins of the code are covered: the walk root and the store prefix.
- `tarPrefix` is not part of this model. It appears as the directory headers it writes, or a failure. On failure, any partial output in front of the error is not modelled.
- Containerd.Ctd.Close: when `os.RemoveAll` fails, it may already have removed part of the directory. The model keeps the directory as it was. That a missing directory is removed successfully is stated as a requirement on the outcome passed in.
- Containerd.Ctd.Kill: after a successful kill, `os.Process.Kill` reports a finished process on a second call. The model takes the outcome of every call as given instead.
- Containerd.Ctd.Bundle: the in-memory buffer never refuses a write, so every header, body and close outcome in `Bundle` is a success. The error checks after them are kept and proved never to fire.
- Go strings that are not valid UTF-8 cannot be represented.
- Logging (`log.Debugf`) is not modelled.
- The concurrency of the daemon process is not modelled.
- cmd/moby/containerd_test.go is not part of this model. It drives the real daemon, and it calls a `Stop` method that the helper does not have.

## Findings

| source | as written | input that shows it | evidently intended | confidence | as-written member | corrected member |
|---|---|---|---|---|---|---|
| cmd/moby/containerd.go:196-206 | symlinks have their target's bytes copied into an entry that announces no body | a symlink under `root` pointing at a non-empty file: `Store` fails with "write too long" | symlinks are archived as a header alone | high, not executed | Archiver.SymlinkAsWritten | Archiver.SymlinkCorrected |
| cmd/moby/containerd.go:196-206 | a symlink's target is opened and read as a file | a symlink under `root` pointing at a directory, such as `bin -> usr/bin`: the read fails and `Store` returns that error | symlinks are archived as a header alone | high, not executed | Archiver.SymlinkToDirectory | Archiver.SymlinkCorrected |
| cmd/moby/containerd.go:182 | the link target passed to `FileInfoHeader` is `fi.Name()`, the symlink's own base name | a symlink `root/a` pointing at an empty file `b`: it is archived as a link to `a` | the target read from the link | high, not executed | Archiver.SymlinkOwnName | Archiver.SymlinkCorrected |
| cmd/moby/containerd.go:168 | the error of the deferred `tw.Close()` is dropped | every file writes, but the writer refuses the final blocks at close: `Store` returns success | a close failure after a good walk is returned | medium, not executed | Archiver.StoreDropsCloseError | Archiver.StoreCorrectedComplete |

`Archiver.Rule` selects the behaviour. Under `AsWritten` the model reproduces the code. Under `Corrected` the three fixes apply:

- only regular files have their bytes copied;
- the link target is the target read from the link;
- a `Close` error after a good walk is returned.

`Containerd.Ctd.Store` and `Containerd.VisitEntry` take the rule as a parameter, so both variants run through the same loop and the same callback.
