/**
 The part of Go's `archive/tar` writer that `Store` and `Bundle` rely on, as
 an append-only sequence of entries (header and body bytes). The byte
 encoding of headers, padding and the trailer blocks are not modelled; the
 size bookkeeping is: a header announces `size` body bytes, a write beyond
 them fails with "write too long" after writing the bytes that fit, and a new
 header or `Close` while bytes are still owed fails with "missed writing".
 Each operation is also given the outcome of the underlying `io.Writer`.
 */
module Tar {
  import opened Errors
  import opened Bytes

  /** Type flags of the entries the model writes. */
  datatype TypeFlag = TypeReg | TypeLink | TypeSymlink | TypeChar | TypeBlock | TypeDir | TypeFifo

  datatype Header = Header(name: string, linkname: string, mode: int, size: nat, typeflag: TypeFlag)

  datatype Entry = Entry(hdr: Header, body: seq<byte>)

  /** What has reached the underlying writer so far, and whether `Close` was called. */
  datatype Archive = Archive(entries: seq<Entry>, closed: bool)

  /** The state after one writer operation and the error it returned. */
  datatype Step = Step(after: Archive, status: Status)

  /** No entry holds more body bytes than its header announced. */
  predicate WellFormed(a: Archive) {
    forall i :: 0 <= i < |a.entries| ==> |a.entries[i].body| <= a.entries[i].hdr.size
  }

  /** Every entry but the current one holds all the body bytes its header announced. */
  predicate Settled(a: Archive) {
    forall i :: 0 <= i < |a.entries| - 1 ==> |a.entries[i].body| == a.entries[i].hdr.size
  }

  /** Every entry holds exactly the body bytes its header announced. */
  predicate Complete(a: Archive) {
    forall i :: 0 <= i < |a.entries| ==> |a.entries[i].body| == a.entries[i].hdr.size
  }

  /** The body bytes the current entry still owes (`LogicalRemaining`); zero before any header. */
  function Pending(a: Archive): (n: int)
    requires WellFormed(a)
    ensures n >= 0
    ensures a.entries == [] ==> n == 0
  {
    if a.entries == [] then 0
    else a.entries[|a.entries| - 1].hdr.size - |a.entries[|a.entries| - 1].body|
  }

  /** Appends body bytes to the last entry; there is none only when `data` is empty. */
  function AppendBody(a: Archive, data: seq<byte>): Archive
    requires a.entries != [] || data == []
  {
    if a.entries == [] then a
    else
      var last := a.entries[|a.entries| - 1];
      a.(entries := a.entries[..|a.entries| - 1] + [last.(body := last.body + data)])
  }

  /** `Writer.WriteHeader`. */
  function HeaderStep(a: Archive, h: Header, sinkOk: bool): (s: Step)
    requires WellFormed(a)
    ensures WellFormed(s.after)
    ensures Settled(a) ==> Settled(s.after)
  {
    if a.closed then Step(a, Failed(WriteAfterClose))
    else if Pending(a) > 0 then Step(a, Failed(MissedBytes(Pending(a))))
    else if !sinkOk then Step(a, Failed(SinkFailed))
    else Step(a.(entries := a.entries + [Entry(h, [])]), Ok)
  }

  /** The part of `data` that fits the bytes the current entry still owes. */
  function Fitting(a: Archive, data: seq<byte>): (fits: seq<byte>)
    requires WellFormed(a)
    ensures fits <= data && |fits| <= Pending(a)
    ensures |data| <= Pending(a) ==> fits == data
    ensures |data| > Pending(a) ==> |fits| == Pending(a)
  {
    if |data| <= Pending(a) then data else data[..Pending(a)]
  }

  /**
   `Writer.Write`: the data is first cut to the bytes the current entry still
   owes; only a non-empty remainder reaches the sink. Data beyond the entry
   is an error, reported after the bytes that fit were written.
   */
  function WriteStep(a: Archive, data: seq<byte>, sinkOk: bool): (s: Step)
    requires WellFormed(a)
    ensures WellFormed(s.after)
    ensures Settled(a) ==> Settled(s.after)
  {
    if a.closed then Step(a, Failed(WriteAfterClose))
    else
      var fits := Fitting(a, data);
      if fits != [] && !sinkOk then Step(a, Failed(SinkFailed))
      else if |data| <= Pending(a) then Step(AppendBody(a, data), Ok)
      else Step(AppendBody(a, fits), Failed(WriteTooLong))
  }

  /**
   `io.Copy(tw, r)` from a source holding `data`: one write of the whole
   content, and no write at all for an empty source.
   */
  function CopyStep(a: Archive, data: seq<byte>, sinkOk: bool): (s: Step)
    requires WellFormed(a)
    ensures WellFormed(s.after)
    ensures Settled(a) ==> Settled(s.after)
  {
    if data == [] then Step(a, Ok) else WriteStep(a, data, sinkOk)
  }

  /** `Writer.Close`: the writer is closed afterwards whatever the outcome; a second close is a no-op. */
  function CloseStep(a: Archive, sinkOk: bool): (s: Step)
    requires WellFormed(a)
    ensures WellFormed(s.after)
    ensures Settled(a) ==> Settled(s.after)
  {
    if a.closed then Step(a, Ok)
    else if Pending(a) > 0 then Step(a.(closed := true), Failed(MissedBytes(Pending(a))))
    else if !sinkOk then Step(a.(closed := true), Failed(SinkFailed))
    else Step(a.(closed := true), Ok)
  }

  /** A settled archive that owes no bytes is complete. */
  lemma SettledIdle(a: Archive)
    requires WellFormed(a) && Settled(a) && Pending(a) == 0
    ensures Complete(a)
  {
  }

  /** A header followed by exactly its announced body succeeds whenever the writer is open and idle. */
  lemma {:induction false} HeaderThenBody(a: Archive, h: Header, body: seq<byte>, headerOk: bool, copyOk: bool)
    requires WellFormed(a) && !a.closed && Pending(a) == 0
    requires h.size == |body|
    ensures var w := HeaderStep(a, h, headerOk);
            var c := CopyStep(w.after, body, copyOk);
            (w.status == Ok && c.status == Ok <==> headerOk && (body == [] || copyOk))
            && (headerOk && (body == [] || copyOk) ==>
                  c.after == Archive(a.entries + [Entry(h, body)], false) && Pending(c.after) == 0)
  {
    var w := HeaderStep(a, h, headerOk);
    if headerOk {
      assert w.after.entries == a.entries + [Entry(h, [])];
      if body != [] && copyOk {
        var c := CopyStep(w.after, body, copyOk);
        assert c.after == AppendBody(w.after, body);
        assert c.after.entries == a.entries + [Entry(h, [] + body)];
        assert [] + body == body;
      }
    }
  }

  /**
   Writing more than the header announced keeps only the announced bytes and
   fails with "write too long"; when nothing is owed the sink is not even consulted.
   */
  lemma OverlongBody(a: Archive, data: seq<byte>, sinkOk: bool)
    requires WellFormed(a) && !a.closed && |data| > Pending(a)
    requires sinkOk || Pending(a) == 0
    ensures WriteStep(a, data, sinkOk).status == Failed(WriteTooLong)
    ensures WriteStep(a, data, sinkOk).after == AppendBody(a, data[..Pending(a)])
  {
  }

  /**
   The tar writer as the source holds it: an object whose entry sequence and
   closed flag each call updates, specified by the functions above.
   */
  class Writer {
    var entries: seq<Entry>
    var closed: bool

    function Snapshot(): Archive
      reads this
    {
      Archive(entries, closed)
    }

    predicate Valid()
      reads this
    {
      WellFormed(Snapshot())
    }

    /** `tar.NewWriter`: nothing written yet. */
    constructor ()
      ensures Valid() && Snapshot() == Archive([], false)
    {
      entries := [];
      closed := false;
    }

    method WriteHeader(h: Header, sinkOk: bool) returns (err: Status)
      requires Valid()
      modifies this
      ensures Valid()
      ensures Step(Snapshot(), err) == HeaderStep(old(Snapshot()), h, sinkOk)
    {
      if closed {
        return Failed(WriteAfterClose);
      }
      var owed := Pending(Snapshot());
      if owed > 0 {
        return Failed(MissedBytes(owed));
      }
      if !sinkOk {
        return Failed(SinkFailed);
      }
      entries := entries + [Entry(h, [])];
      err := Ok;
    }

    method Write(data: seq<byte>, sinkOk: bool) returns (err: Status)
      requires Valid()
      modifies this
      ensures Valid()
      ensures Step(Snapshot(), err) == WriteStep(old(Snapshot()), data, sinkOk)
    {
      if closed {
        return Failed(WriteAfterClose);
      }
      var room := Pending(Snapshot());
      var fits := if |data| <= room then data else data[..room];
      if fits != [] && !sinkOk {
        return Failed(SinkFailed);
      }
      if entries != [] {
        var last := entries[|entries| - 1];
        entries := entries[..|entries| - 1] + [last.(body := last.body + fits)];
      }
      err := if |data| <= room then Ok else Failed(WriteTooLong);
    }

    method Close(sinkOk: bool) returns (err: Status)
      requires Valid()
      modifies this
      ensures Valid()
      ensures Step(Snapshot(), err) == CloseStep(old(Snapshot()), sinkOk)
    {
      if closed {
        return Ok;
      }
      var owed := Pending(Snapshot());
      closed := true;
      err := if owed > 0 then Failed(MissedBytes(owed)) else if !sinkOk then Failed(SinkFailed) else Ok;
    }
  }

  /** `io.Copy(tw, src)` where `src` yields `data`. */
  method Copy(tw: Writer, data: seq<byte>, sinkOk: bool) returns (err: Status)
    requires tw.Valid()
    modifies tw
    ensures tw.Valid()
    ensures Step(tw.Snapshot(), err) == CopyStep(old(tw.Snapshot()), data, sinkOk)
  {
    if data == [] {
      return Ok;
    }
    err := tw.Write(data, sinkOk);
  }
}
