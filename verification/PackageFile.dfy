/** A package file on disk: every operation on it may fail, a write after any number of bytes. */
module PackageFile {
  import opened Basics
  import opened EmbeddedSections

  const MAX_OFFSET: nat := 0x7FFF_FFFF_FFFF_FFFF
  const COPY_BYTES: nat := 16 * 1024 * 1024

  function Resized(bytes: seq<Byte>, size: nat): (r: seq<Byte>)
    ensures |r| == size
  {
    if size <= |bytes| then bytes[..size] else bytes + Zeros(size - |bytes|)
  }

  /** The bytes after data was written at the offset; a gap before it reads as zeros. */
  function Overwritten(bytes: seq<Byte>, offset: nat, data: seq<Byte>): (r: seq<Byte>)
  {
    if data == [] then bytes
    else if offset + |data| <= |bytes| then bytes[..offset] + data + bytes[offset + |data|..]
    else Resized(bytes, offset) + data
  }

  /** How much of a write of n bytes is done. */
  function Reached(fault: Option<nat>, n: nat): (k: nat)
    ensures k <= n
  {
    match fault
    case None => n
    case Some(k) => Min(k, n)
  }

  datatype Op = Write(offset: nat) | Truncate | Sync

  /** An operation, whether it succeeded, and the contents it left. */
  datatype Event = Event(op: Op, done: bool, bytes: seq<Byte>)

  /** The log only grew, and every state added to it starts with the given bytes. */
  predicate Logged(before: seq<Event>, log: seq<Event>, kept: seq<Byte>)
  {
    before <= log && forall i :: |before| <= i < |log| ==> kept <= log[i].bytes
  }

  class PackageFile {
    var bytes: seq<Byte>
    var step: nat
    const faults: nat -> Option<nat>
    ghost var log: seq<Event>

    constructor (contents: seq<Byte>, plan: nat -> Option<nat>)
      ensures bytes == contents && step == 0 && faults == plan && log == []
    {
      bytes, step, faults, log := contents, 0, plan, [];
    }

    /** An operation on another file, or one that leaves this one alone. */
    method Try() returns (ok: bool)
      modifies this`step
      ensures step == old(step) + 1 && ok == faults(old(step)).None?
    {
      ok := faults(step).None?;
      step := step + 1;
    }

    method WriteAt(data: seq<Byte>, offset: nat) returns (ok: bool, written: nat)
      modifies this
      ensures step == old(step) + 1 && ok == faults(old(step)).None?
      ensures written == Reached(faults(old(step)), |data|)
      ensures bytes == Overwritten(old(bytes), offset, data[..written])
      ensures log == old(log) + [Event(Write(offset), ok, bytes)]
    {
      ok, written := faults(step).None?, Reached(faults(step), |data|);
      bytes := Overwritten(bytes, offset, data[..written]);
      step := step + 1;
      log := log + [Event(Write(offset), ok, bytes)];
    }

    method Truncate(size: nat) returns (ok: bool)
      modifies this
      ensures step == old(step) + 1 && ok == faults(old(step)).None?
      ensures bytes == if ok then Resized(old(bytes), size) else old(bytes)
      ensures log == old(log) + [Event(Op.Truncate, ok, bytes)]
    {
      ok := faults(step).None?;
      if ok {
        bytes := Resized(bytes, size);
      }
      step := step + 1;
      log := log + [Event(Op.Truncate, ok, bytes)];
    }

    method Sync() returns (ok: bool)
      modifies this`step, this`log
      ensures step == old(step) + 1 && ok == faults(old(step)).None?
      ensures log == old(log) + [Event(Op.Sync, ok, bytes)]
    {
      ok := faults(step).None?;
      step := step + 1;
      log := log + [Event(Op.Sync, ok, bytes)];
    }

    /** One piece of the copy: read from the source, written behind the pieces before. */
    method CopyPiece(source: seq<Byte>, offset: nat, copied: nat, chunk: nat) returns (ok: bool)
      requires copied + chunk <= |source| && Copying(bytes, offset, source, copied)
      modifies this
      ensures Copying(bytes, offset, source, copied) && bytes[..offset] == old(bytes)[..offset]
      ensures ok ==> Copying(bytes, offset, source, copied + chunk)
      ensures (forall s :: faults(s) == None) ==> ok
      ensures Logged(old(log), log, old(bytes)[..offset])
    {
      ok := Try();
      if !ok {
        return;
      }
      var written;
      ok, written := WriteAt(source[copied..copied + chunk], offset + copied);
      Continued(old(bytes), offset, source, copied, source[copied..copied + chunk], written);
    }

    /** Copying the rest in bounded pieces, after a first part was copied by other means. */
    method CopyRest(source: seq<Byte>, offset: nat, start: nat) returns (ok: bool)
      requires start <= |source| && Copying(bytes, offset, source, start)
      modifies this
      ensures |bytes| == offset + |source| && bytes[..offset] == old(bytes)[..offset]
      ensures ok ==> Copying(bytes, offset, source, |source|)
      ensures (forall s :: faults(s) == None) ==> ok
      ensures Logged(old(log), log, old(bytes)[..offset])
    {
      var copied := start;
      ok := true;
      while copied < |source|
        invariant start <= copied <= |source| && Copying(bytes, offset, source, copied)
        invariant bytes[..offset] == old(bytes)[..offset]
        invariant Logged(old(log), log, old(bytes)[..offset])
      {
        var chunk := Min(COPY_BYTES, |source| - copied);
        ok := CopyPiece(source, offset, copied, chunk);
        if !ok {
          return;
        }
        copied := copied + chunk;
      }
    }

    /** Filling the place made for the source: by one fast copy, which may stop anywhere, then piece by piece. */
    method Fill(source: seq<Byte>, offset: nat) returns (ok: bool)
      requires |bytes| == offset + |source|
      modifies this
      ensures |bytes| == offset + |source| && bytes[..offset] == old(bytes)[..offset]
      ensures ok ==> Copying(bytes, offset, source, |source|)
      ensures (forall s :: faults(s) == None) ==> ok
      ensures Logged(old(log), log, old(bytes)[..offset])
    {
      var copied;
      ok, copied := WriteAt(source, offset);
      Continued(old(bytes), offset, source, 0, source, copied);
      if !ok {
        ok := CopyRest(source, offset, copied);
      }
    }

    /** Copying a whole source to the offset, extending the file first; what lies before is kept. */
    method CopyRange(source: seq<Byte>, offset: nat) returns (ok: bool)
      requires |bytes| <= offset
      modifies this
      ensures old(bytes) <= bytes
      ensures ok ==> offset + |source| <= MAX_OFFSET && bytes == Resized(old(bytes), offset) + source
      ensures offset + |source| <= MAX_OFFSET && (forall s :: faults(s) == None) ==> ok
      ensures Logged(old(log), log, old(bytes))
    {
      ok := offset + |source| <= MAX_OFFSET;
      if !ok {
        return;
      }
      ok := Truncate(offset + |source|);
      if !ok {
        return;
      }
      Extended(old(bytes), offset, |source|);
      ok := Fill(source, offset);
      Copied(old(bytes), bytes, offset, source);
    }
  }

  lemma Extended(before: seq<Byte>, offset: nat, size: nat)
    requires |before| <= offset
    ensures before <= Resized(before, offset) && Resized(before, offset + size)[..offset] == Resized(before, offset)
  {
  }

  /** The file ends with the place for the source, whose first copied bytes are there. */
  predicate Copying(bytes: seq<Byte>, offset: nat, source: seq<Byte>, copied: nat)
    requires copied <= |source|
  {
    |bytes| == offset + |source| && bytes[offset..offset + copied] == source[..copied]
  }

  lemma Copied(before: seq<Byte>, after: seq<Byte>, offset: nat, source: seq<Byte>)
    requires |before| <= offset <= |after| && after[..offset] == Resized(before, offset)
    ensures before <= after
    ensures Copying(after, offset, source, |source|) ==> after == Resized(before, offset) + source
  {
    Extended(before, offset, 0);
    assert before == after[..|before|];
    if Copying(after, offset, source, |source|) {
      assert source[..|source|] == source && after[offset..] == source;
      assert after == after[..offset] + after[offset..];
    }
  }

  lemma Continued(before: seq<Byte>, offset: nat, source: seq<Byte>, copied: nat, piece: seq<Byte>, written: nat)
    requires copied + |piece| <= |source| && Copying(before, offset, source, copied) && written <= |piece|
    requires piece == source[copied..copied + |piece|]
    ensures var after := Overwritten(before, offset + copied, piece[..written]);
            Copying(after, offset, source, copied + written) && Copying(after, offset, source, copied)
            && after[..offset] == before[..offset]
  {
    var after := Overwritten(before, offset + copied, piece[..written]);
    forall i | 0 <= i < copied + written
      ensures after[offset..offset + copied + written][i] == source[i]
    {
      if i < copied {
        assert before[offset..offset + copied][i] == source[..copied][i];
      } else {
        assert after[offset + i] == piece[..written][i - copied] == piece[i - copied];
      }
    }
    assert after[offset..offset + copied] == after[offset..offset + copied + written][..copied];
  }
}
