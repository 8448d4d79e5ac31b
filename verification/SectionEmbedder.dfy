/** Appending sections to a primary file in place: append, sync, commit the header, or roll back. */
module SectionEmbedder {
  import opened Basics
  import opened EmbeddedSections
  import opened PackageFile
  import opened PackageHeader
  import opened SectionLayout

  /**
   * Of a run: where in the log the commit began, how many bytes of the new header it wrote, the step at which undoing
   * began, and the faults of the cut and of putting the header back.
   */
  datatype Trace = Trace(commit: nat, written: nat, undo: nat, cut: Option<nat>, back: Option<nat>)

  datatype Stats = Stats(source: nat, sections: nat, padding: nat, directory: nat, package: nat)

  ghost predicate NoFaults(file: PackageFile)
  {
    forall s :: file.faults(s) == None
  }

  predicate HasInput(inputs: seq<Input>, n: nat, kind: nat)
    requires n <= |inputs|
  {
    exists i :: 0 <= i < n && inputs[i].kind == kind
  }

  predicate AcceptableFirst(inputs: seq<Input>, n: nat)
    requires n <= |inputs|
  {
    && (forall i :: 0 <= i < n ==> Usable(inputs[i]))
    && (forall i, j :: 0 <= i < j < n ==> inputs[i].kind != inputs[j].kind)
  }

  /** Opening every source; one that cannot be used, or of a kind seen before, ends the attempt. */
  method OpenSources(file: PackageFile, inputs: seq<Input>) returns (ok: bool)
    requires inputs != []
    modifies file`step
    ensures ok ==> Acceptable(inputs)
    ensures NoFaults(file) && Acceptable(inputs) ==> ok
  {
    var n: nat := 0;
    ok := true;
    while n < |inputs|
      invariant n <= |inputs| && AcceptableFirst(inputs, n) && ok
    {
      if !ValidKind(inputs[n].kind) || HasInput(inputs, n, inputs[n].kind) {
        return false;
      }
      ok := file.Try();
      if !ok || inputs[n].source.None? || inputs[n].source.value == [] {
        return false;
      }
      n := n + 1;
    }
  }

  /** One source, copied to the next aligned offset. */
  method AppendSection(file: PackageFile, original: seq<Byte>, sources: seq<Source>, n: nat)
    returns (ok: bool, entry: Section)
    requires n < |sources| && file.bytes == Packed(original, sources, n)
    modifies file
    ensures original <= file.bytes && Logged(old(file.log), file.log, original)
    ensures ok ==> file.bytes == Packed(original, sources, n + 1) && |file.bytes| <= MAX_OFFSET
    ensures entry == PlacedSection(|original|, sources, n)
    ensures NoFaults(file) && Cursor(|original|, sources, n + 1) <= MAX_OFFSET ==> ok
  {
    var cursor := Aligned(|file.bytes|);
    entry := Section(sources[n].kind, cursor, |sources[n].data|);
    ok := file.CopyRange(sources[n].data, cursor);
    LoggedLess(old(file.log), file.log, old(file.bytes), original);
  }

  lemma LoggedLess(before: seq<Event>, log: seq<Event>, kept: seq<Byte>, less: seq<Byte>)
    requires Logged(before, log, kept) && less <= kept
    ensures Logged(before, log, less)
  {
  }

  lemma LoggedMore(first: seq<Event>, second: seq<Event>, third: seq<Event>, kept: seq<Byte>)
    requires Logged(first, second, kept) && Logged(second, third, kept)
    ensures Logged(first, third, kept)
  {
  }

  /** Where the file and the counts stand after n sources. */
  predicate Appended(bytes: seq<Byte>, original: seq<Byte>, sources: seq<Source>, n: nat, entries: seq<Section>,
                     padding: nat, data: nat)
  {
    && n <= |sources| && bytes == Packed(original, sources, n) && entries == Placed(|original|, sources, n)
    && |original| + padding + data == |bytes| && data == DataBytes(sources, n)
  }

  lemma AppendedNext(original: seq<Byte>, sources: seq<Source>, n: nat, entries: seq<Section>, padding: nat, data: nat)
    requires n < |sources| && Appended(Packed(original, sources, n), original, sources, n, entries, padding, data)
    ensures var cursor := Cursor(|original|, sources, n);
            Appended(Packed(original, sources, n + 1), original, sources, n + 1,
                     entries + [PlacedSection(|original|, sources, n)], padding + Aligned(cursor) - cursor,
                     data + |sources[n].data|)
  {
  }

  /** The copy loop over the sources. */
  method AppendSections(file: PackageFile, original: seq<Byte>, sources: seq<Source>)
    returns (ok: bool, entries: seq<Section>, padding: nat, data: nat)
    requires file.bytes == original && |original| <= MAX_OFFSET
    modifies file
    ensures original <= file.bytes && Logged(old(file.log), file.log, original)
    ensures ok ==> Appended(file.bytes, original, sources, |sources|, entries, padding, data)
    ensures ok ==> |file.bytes| <= MAX_OFFSET
    ensures NoFaults(file) && Cursor(|original|, sources, |sources|) <= MAX_OFFSET ==> ok
  {
    entries, padding, data := [], 0, 0;
    var n: nat := 0;
    ok := true;
    while n < |sources|
      invariant ok && Appended(file.bytes, original, sources, n, entries, padding, data)
      invariant Logged(old(file.log), file.log, original) && |file.bytes| <= MAX_OFFSET
    {
      AppendedNext(original, sources, n, entries, padding, data);
      CursorGrows(|original|, sources, n + 1, |sources|);
      padding := padding + Aligned(|file.bytes|) - |file.bytes|;
      ghost var log := file.log;
      var entry;
      ok, entry := AppendSection(file, original, sources, n);
      LoggedMore(old(file.log), log, file.log, original);
      if !ok {
        return;
      }
      entries, data, n := entries + [entry], data + |sources[n].data|, n + 1;
    }
  }

  /** The two writes that put the directory behind the sections. */
  method WriteEntries(file: PackageFile, header: seq<Byte>, list: seq<Byte>, offset: nat) returns (ok: bool)
    requires |file.bytes| <= offset && |header| == RECORD_BYTES
    modifies file
    ensures old(file.bytes) <= file.bytes && Logged(old(file.log), file.log, old(file.bytes))
    ensures ok ==> file.bytes == Resized(old(file.bytes), offset) + (header + list)
    ensures NoFaults(file) ==> ok
  {
    var written;
    ok, written := file.WriteAt(header, offset);
    WriteBehind(old(file.bytes), offset, header, written);
    if !ok {
      return;
    }
    ghost var base := file.bytes;
    ok, written := file.WriteAt(list, offset + RECORD_BYTES);
    WriteBehind(base, |base|, list, written);
  }

  lemma WriteBehind(before: seq<Byte>, offset: nat, data: seq<Byte>, written: nat)
    requires |before| <= offset && written <= |data|
    ensures before <= Overwritten(before, offset, data[..written])
    ensures written == |data| > 0 || offset == |before| ==>
              Overwritten(before, offset, data[..written]) == Resized(before, offset) + data[..written]
    ensures data[..|data|] == data
  {
  }

  /** The last thing logged is that the file was on disk with these contents. */
  predicate SyncedLast(before: seq<Event>, log: seq<Event>, bytes: seq<Byte>)
  {
    |log| > |before| && log[|log| - 1] == Event(Op.Sync, true, bytes)
  }

  /** Setting the size, which the file already has, and syncing. */
  method Settle(file: PackageFile, size: nat) returns (ok: bool)
    requires |file.bytes| == size
    modifies file
    ensures file.bytes == old(file.bytes) && Logged(old(file.log), file.log, file.bytes)
    ensures ok ==> SyncedLast(old(file.log), file.log, file.bytes)
    ensures NoFaults(file) ==> ok
  {
    ok := file.Truncate(size);
    if !ok {
      return;
    }
    assert file.bytes == old(file.bytes);
    ok := file.Sync();
  }

  /** The directory behind the sections, on disk before the header refers to it. */
  method WriteDirectory(file: PackageFile, entries: seq<Section>) returns (ok: bool, offset: nat)
    modifies file
    ensures old(file.bytes) <= file.bytes && Logged(old(file.log), file.log, old(file.bytes))
    ensures offset == Aligned(|old(file.bytes)|)
    ensures ok ==> offset + DirectorySize(|entries|) <= MAX_OFFSET
    ensures ok ==> file.bytes
                   == Padded(old(file.bytes)) + DirectoryBytes(entries, offset + DirectorySize(|entries|))
    ensures ok ==> SyncedLast(old(file.log), file.log, file.bytes)
    ensures NoFaults(file) && offset + DirectorySize(|entries|) <= MAX_OFFSET ==> ok
  {
    offset := Aligned(|file.bytes|);
    var size := DirectorySize(|entries|);
    ok := offset + size <= MAX_OFFSET;
    if !ok {
      return;
    }
    ok := WriteEntries(file, DirectoryHeader(|entries|, offset + size), SectionsBytes(entries, |entries|), offset);
    if !ok {
      return;
    }
    ghost var log, written := file.log, file.bytes;
    ok := Settle(file, offset + size);
    LoggedLess(log, file.log, written, old(file.bytes));
    LoggedMore(old(file.log), log, file.log, old(file.bytes));
  }

  // ----- commit and roll back -----

  /** The file still holds everything of the original except, possibly, its header. */
  predicate BodyKept(bytes: seq<Byte>, original: seq<Byte>)
  {
    HEADER_BYTES <= |original| <= |bytes| && bytes[HEADER_BYTES..|original|] == original[HEADER_BYTES..]
  }

  /** The first n bytes of one header over another. */
  function Mixed(over: seq<Byte>, under: seq<Byte>, n: nat): (h: seq<Byte>)
    requires |over| == |under| == HEADER_BYTES && n <= HEADER_BYTES
    ensures |h| == HEADER_BYTES
  {
    over[..n] + under[n..]
  }

  lemma HeaderWrite(bytes: seq<Byte>, original: seq<Byte>, header: seq<Byte>, written: nat)
    requires BodyKept(bytes, original) && |header| == HEADER_BYTES && written <= HEADER_BYTES
    ensures var after := Overwritten(bytes, 0, header[..written]);
            && BodyKept(after, original) && |after| == |bytes|
            && after[..HEADER_BYTES] == Mixed(header, bytes[..HEADER_BYTES], written)
            && (written == HEADER_BYTES ==> after == header + bytes[HEADER_BYTES..])
            && (header == original[..HEADER_BYTES] && original <= bytes ==> original <= after)
  {
    var after := Overwritten(bytes, 0, header[..written]);
    forall i | HEADER_BYTES <= i < |original|
      ensures after[i] == original[i]
    {
      assert bytes[HEADER_BYTES..|original|][i - HEADER_BYTES] == original[HEADER_BYTES..][i - HEADER_BYTES];
    }
    assert after[HEADER_BYTES..|original|] == original[HEADER_BYTES..];
    assert header[..HEADER_BYTES] == header;
  }

  lemma PrefixKept(bytes: seq<Byte>, original: seq<Byte>)
    requires original <= bytes && |original| >= HEADER_BYTES
    ensures BodyKept(bytes, original)
  {
    assert original == bytes[..|original|];
  }

  /** What the cut and the header write, each done as far as it got, leave of the file. */
  predicate RolledBackTo(bytes: seq<Byte>, original: seq<Byte>, before: seq<Byte>, cut: Option<nat>, header: Option<nat>)
    requires BodyKept(before, original)
  {
    && BodyKept(bytes, original)
    && bytes[..HEADER_BYTES]
       == Mixed(original[..HEADER_BYTES], before[..HEADER_BYTES], Reached(header, HEADER_BYTES))
    && |bytes| == if cut.None? then |original| else |before|
  }

  /** The steps after a failure: cut the file back, put the old header back, sync; each may fail, none is checked. */
  method RollBack(file: PackageFile, original: seq<Byte>) returns (ghost cut: Option<nat>, ghost back: Option<nat>)
    requires BodyKept(file.bytes, original)
    modifies file
    ensures BodyKept(file.bytes, original)
    ensures file.step == old(file.step) + 3
    ensures cut == file.faults(old(file.step)) && back == file.faults(old(file.step) + 1)
    ensures RolledBackTo(file.bytes, original, old(file.bytes), cut, back)
    ensures original <= old(file.bytes) ==> original <= file.bytes && Logged(old(file.log), file.log, original)
    ensures old(file.log) <= file.log
  {
    cut, back := file.faults(file.step), file.faults(file.step + 1);
    var done := file.Truncate(|original|);
    CutBack(old(file.bytes), original);
    PutHeaderBack(file, original);
    var ok := file.Sync();
  }

  lemma CutBack(bytes: seq<Byte>, original: seq<Byte>)
    requires BodyKept(bytes, original)
    ensures BodyKept(Resized(bytes, |original|), original)
    ensures Resized(bytes, |original|)[..HEADER_BYTES] == bytes[..HEADER_BYTES]
    ensures original <= bytes ==> original <= Resized(bytes, |original|)
  {
  }

  /** Writing the old header; its result is not looked at. */
  method PutHeaderBack(file: PackageFile, original: seq<Byte>)
    requires BodyKept(file.bytes, original)
    modifies file
    ensures BodyKept(file.bytes, original) && file.step == old(file.step) + 1 && |file.bytes| == |old(file.bytes)|
    ensures file.bytes[..HEADER_BYTES] == Mixed(original[..HEADER_BYTES], old(file.bytes)[..HEADER_BYTES],
                                                Reached(file.faults(old(file.step)), HEADER_BYTES))
    ensures original <= old(file.bytes) ==> original <= file.bytes
    ensures |file.log| == |old(file.log)| + 1 && old(file.log) <= file.log
    ensures file.log[|file.log| - 1].bytes == file.bytes
  {
    var ok, written := file.WriteAt(original[..HEADER_BYTES], 0);
    HeaderWrite(old(file.bytes), original, original[..HEADER_BYTES], written);
  }

  /** The file after so many bytes of the new header were written. */
  predicate CommittedPart(bytes: seq<Byte>, original: seq<Byte>, sources: seq<Source>, written: nat)
    requires Bare(original)
  {
    && written <= HEADER_BYTES && BodyKept(bytes, original) && |bytes| == PackageSize(original, sources)
    && bytes[..HEADER_BYTES] == Mixed(NewHeader(original, sources), original[..HEADER_BYTES], written)
  }

  /** The write that makes the sections visible, and how far it got. */
  method Commit(file: PackageFile, original: seq<Byte>, sources: seq<Source>) returns (ok: bool, ghost written: nat)
    requires Bare(original) && file.bytes == Complete(original, sources)
    modifies file
    ensures written == Reached(file.faults(old(file.step)), HEADER_BYTES)
    ensures CommittedPart(file.bytes, original, sources, written)
    ensures file.faults(old(file.step)).Some? ==> !ok && file.step == old(file.step) + 1
    ensures ok ==> file.bytes == Linked(original, sources)
    ensures old(file.log) <= file.log && |old(file.log)| < |file.log|
    ensures NoFaults(file) ==> ok
  {
    PrefixKept(file.bytes, original);
    var header, n := NewHeader(original, sources), 0;
    ok, n := file.WriteAt(header, 0);
    HeaderWrite(old(file.bytes), original, header, n);
    written := n;
    if !ok {
      return;
    }
    ok := file.Sync();
  }

  // ----- the whole operation -----

  /** Every state before the given one still starts with the original file. */
  predicate IntactUntil(log: seq<Event>, from: nat, until: nat, original: seq<Byte>)
  {
    from <= until <= |log| && forall i :: from <= i < until ==> original <= log[i].bytes
  }

  /** The log from an attempt that committed, if it did, at the given point. */
  predicate CommittedAt(before: seq<Event>, log: seq<Event>, commit: nat, original: seq<Byte>, sources: seq<Source>)
  {
    && before <= log && IntactUntil(log, |before|, commit, original)
    && (commit < |log| ==> commit > |before| && log[commit - 1] == Event(Op.Sync, true, Complete(original, sources)))
  }

  predicate Accounted(stats: Stats, original: seq<Byte>, sources: seq<Source>)
  {
    && stats.source == |original| && stats.sections == DataBytes(sources, |sources|)
    && stats.directory == DirectorySize(|sources|) && stats.package == PackageSize(original, sources)
    && stats.source + stats.sections + stats.padding + stats.directory == stats.package
  }

  /** Everything before the commit: the file is complete and on disk, and the original header untouched. */
  method Prepare(file: PackageFile, original: seq<Byte>, sources: seq<Source>) returns (ok: bool, stats: Stats)
    requires file.bytes == original && |original| <= MAX_OFFSET
    modifies file
    ensures original <= file.bytes && Logged(old(file.log), file.log, original)
    ensures ok ==> file.bytes == Complete(original, sources) && PackageSize(original, sources) <= MAX_OFFSET
    ensures ok ==> Accounted(stats, original, sources)
    ensures ok ==> SyncedLast(old(file.log), file.log, Complete(original, sources))
    ensures NoFaults(file) && PackageSize(original, sources) <= MAX_OFFSET ==> ok
  {
    stats := Stats(0, 0, 0, 0, 0);
    var entries, padding, data;
    ok, entries, padding, data := AppendSections(file, original, sources);
    if !ok {
      return;
    }
    ghost var log, appended := file.log, file.bytes;
    var cursor: nat, offset: nat := |file.bytes|, 0;
    ok, offset := WriteDirectory(file, entries);
    LoggedLess(log, file.log, appended, original);
    LoggedMore(old(file.log), log, file.log, original);
    if !ok {
      return;
    }
    stats := Stats(|original|, data, padding + offset - cursor, DirectorySize(|entries|), |file.bytes|);
  }

  /** Appending and committing; on failure the file is left as it is. */
  method Attempt(file: PackageFile, original: seq<Byte>, sources: seq<Source>)
    returns (ok: bool, stats: Stats, ghost commit: nat, ghost written: nat)
    requires Bare(original) && file.bytes == original && |original| <= MAX_OFFSET
    modifies file
    ensures BodyKept(file.bytes, original)
    ensures ok ==> file.bytes == Linked(original, sources) && PackageSize(original, sources) <= MAX_OFFSET
    ensures ok ==> Accounted(stats, original, sources) && commit < |file.log|
    ensures CommittedAt(old(file.log), file.log, commit, original, sources)
    ensures if commit == |file.log| then original <= file.bytes && written == 0
            else CommittedPart(file.bytes, original, sources, written)
    ensures NoFaults(file) && PackageSize(original, sources) <= MAX_OFFSET ==> ok
  {
    ok, stats := Prepare(file, original, sources);
    PrefixKept(file.bytes, original);
    commit, written := |file.log|, 0;
    if !ok {
      NotCommitted(old(file.log), file.log, original, sources);
      return;
    }
    ghost var log := file.log;
    ok, written := Commit(file, original, sources);
    CommitLogged(old(file.log), log, file.log, original, sources);
  }

  lemma NotCommitted(first: seq<Event>, second: seq<Event>, original: seq<Byte>, sources: seq<Source>)
    requires Logged(first, second, original)
    ensures CommittedAt(first, second, |second|, original, sources)
  {
  }

  lemma CommitLogged(first: seq<Event>, second: seq<Event>, third: seq<Event>, original: seq<Byte>,
                     sources: seq<Source>)
    ensures Logged(first, second, original) && SyncedLast(first, second, Complete(original, sources)) && second <= third
            ==> CommittedAt(first, third, |second|, original, sources)
  {
    if Logged(first, second, original) && SyncedLast(first, second, Complete(original, sources)) && second <= third {
      assert third[|second| - 1] == second[|second| - 1];
    }
  }

  /** The operation can succeed: a valid primary file without sections, usable inputs, and a size within file offsets. */
  predicate CanEmbed(original: seq<Byte>, inputs: seq<Input>)
  {
    Bare(original) && Acceptable(inputs) && PackageSize(original, Opened(inputs)) <= MAX_OFFSET
  }

  /** The log of a run: nothing but additions, and until the commit every state starts with the original. */
  predicate RunLogged(before: seq<Event>, log: seq<Event>, commit: nat, original: seq<Byte>, inputs: seq<Input>)
  {
    && before <= log && IntactUntil(log, |before|, commit, original)
    && (commit < |log| ==> Acceptable(inputs) && CommittedAt(before, log, commit, original, Opened(inputs)))
  }

  lemma RolledBack(first: seq<Event>, second: seq<Event>, third: seq<Event>, commit: nat, original: seq<Byte>,
                   sources: seq<Source>)
    requires CommittedAt(first, second, commit, original, sources) && second <= third
    requires commit == |second| ==> Logged(second, third, original)
    ensures commit == |second| ==> IntactUntil(third, |first|, |third|, original) && first <= third
    ensures commit < |second| ==> CommittedAt(first, third, commit, original, sources)
  {
  }

  /**
   * After a failure at which so many bytes of the new header had been written, none unless the commit was tried: the
   * body is the original's, and the header is the old one as far as it was put back.
   */
  predicate Undone(bytes: seq<Byte>, original: seq<Byte>, sources: seq<Source>, written: nat, cut: Option<nat>,
                   header: Option<nat>)
    requires Bare(original)
  {
    && written <= HEADER_BYTES && BodyKept(bytes, original)
    && bytes[..HEADER_BYTES]
       == Mixed(original[..HEADER_BYTES], Mixed(NewHeader(original, sources), original[..HEADER_BYTES], written),
                Reached(header, HEADER_BYTES))
    && (cut.None? ==> |bytes| == |original|)
    && (cut.Some? && written > 0 ==> |bytes| == PackageSize(original, sources) > |original|)
  }

  /** What a failure leaves once the inputs had been accepted. */
  predicate Failed(bytes: seq<Byte>, original: seq<Byte>, inputs: seq<Input>, written: nat, cut: Option<nat>,
                   header: Option<nat>)
  {
    Bare(original) && Acceptable(inputs) && Undone(bytes, original, Opened(inputs), written, cut, header)
  }

  /** The last three steps were the undoing; nothing of the new header is written before the commit. */
  predicate TraceOk(faults: nat -> Option<nat>, step: nat, events: nat, t: Trace)
  {
    && t.undo + 3 == step && t.cut == faults(t.undo) && t.back == faults(t.undo + 1)
    && (t.commit == events ==> t.written == 0)
  }

  lemma NothingWritten(original: seq<Byte>, sources: seq<Source>, bytes: seq<Byte>, before: seq<Byte>,
                       cut: Option<nat>, header: Option<nat>)
    requires Bare(original) && original <= before && BodyKept(before, original)
    requires RolledBackTo(bytes, original, before, cut, header)
    ensures Undone(bytes, original, sources, 0, cut, header)
  {
    assert before[..HEADER_BYTES] == original[..HEADER_BYTES];
    assert Mixed(NewHeader(original, sources), original[..HEADER_BYTES], 0) == original[..HEADER_BYTES];
  }

  lemma PartUndone(bytes: seq<Byte>, original: seq<Byte>, sources: seq<Source>, written: nat, before: seq<Byte>,
                   cut: Option<nat>, header: Option<nat>)
    requires Bare(original) && CommittedPart(before, original, sources, written)
    requires RolledBackTo(bytes, original, before, cut, header)
    ensures Undone(bytes, original, sources, written, cut, header)
  {
    PackageLonger(original, sources);
  }

  lemma PackageLonger(original: seq<Byte>, sources: seq<Source>)
    ensures PackageSize(original, sources) > |original|
  {
    CursorGrows(|original|, sources, 0, |sources|);
  }

  /** An attempt, undone if it failed. */
  method AttemptOrUndo(file: PackageFile, original: seq<Byte>, inputs: seq<Input>)
    returns (ok: bool, stats: Stats, ghost trace: Trace)
    requires Bare(original) && Acceptable(inputs) && file.bytes == original && |original| <= MAX_OFFSET
    modifies file
    ensures BodyKept(file.bytes, original)
    ensures ok ==> file.bytes == Linked(original, Opened(inputs)) && PackageSize(original, Opened(inputs)) <= MAX_OFFSET
    ensures ok ==> Accounted(stats, original, Opened(inputs))
    ensures !ok ==> TraceOk(file.faults, file.step, |file.log|, trace)
                    && Failed(file.bytes, original, inputs, trace.written, trace.cut, trace.back)
    ensures RunLogged(old(file.log), file.log, trace.commit, original, inputs)
    ensures NoFaults(file) && PackageSize(original, Opened(inputs)) <= MAX_OFFSET ==> ok
  {
    ghost var commit, written;
    ok, stats, commit, written := Attempt(file, original, Opened(inputs));
    trace := Trace(commit, written, file.step, None, None);
    if !ok {
      ghost var log, before, undo := file.log, file.bytes, file.step;
      ghost var cut, back := RollBack(file, original);
      if commit == |log| {
        NothingWritten(original, Opened(inputs), file.bytes, before, cut, back);
      } else {
        PartUndone(file.bytes, original, Opened(inputs), written, before, cut, back);
      }
      RolledBack(old(file.log), log, file.log, commit, original, Opened(inputs));
      trace := Trace(if commit == |log| then |file.log| else commit, written, undo, cut, back);
    }
  }

  // ----- when the original is restored -----

  /** The old header was put back over everything of the new one that differs. */
  predicate HeaderBack(original: seq<Byte>, sources: seq<Source>, written: nat, back: nat)
    requires Bare(original) && written <= HEADER_BYTES
  {
    forall i :: back <= i < written ==> NewHeader(original, sources)[i] == original[i]
  }

  /**
   * After a failure the file starts with the original exactly when the old header was put back over what the commit
   * had changed, and is the original exactly when it was cut back as well.
   */
  lemma RestoredIff(bytes: seq<Byte>, original: seq<Byte>, sources: seq<Source>, written: nat, cut: Option<nat>,
                    header: Option<nat>)
    requires Bare(original) && Undone(bytes, original, sources, written, cut, header)
    ensures original <= bytes <==> HeaderBack(original, sources, written, Reached(header, HEADER_BYTES))
    ensures bytes == original <==>
              HeaderBack(original, sources, written, Reached(header, HEADER_BYTES)) && |bytes| == |original|
  {
    var k, committed := Reached(header, HEADER_BYTES), NewHeader(original, sources);
    forall i | 0 <= i < HEADER_BYTES
      ensures bytes[i] == if k <= i < written then committed[i] else original[i]
    {
      assert bytes[..HEADER_BYTES][i] == bytes[i];
    }
    forall i | HEADER_BYTES <= i < |original|
      ensures bytes[i] == original[i]
    {
      assert bytes[HEADER_BYTES..|original|][i - HEADER_BYTES] == original[HEADER_BYTES..][i - HEADER_BYTES];
    }
    if HeaderBack(original, sources, written, k) {
      assert original == bytes[..|original|];
    }
  }

  /** The words for the directory's place are unused, as in a file as written. */
  predicate LinkUnused(original: seq<Byte>)
    requires Bare(original)
  {
    var at := LinkAt(FormatOf(original).value);
    At(original, at, 8) == 0 && At(original, at + 8, 8) == 0
  }

  lemma LinkDiffers(original: seq<Byte>, sources: seq<Source>, h: seq<Byte>, at: nat)
    requires Bare(original) && LinkUnused(original) && PackageSize(original, sources) <= MAX_OFFSET && |h| == HEADER_BYTES
    requires at == LinkAt(FormatOf(original).value) && h[at..at + 8] == original[at..at + 8]
    ensures h != NewHeader(original, sources)
  {
    BareHeader(original);
    CommittedParts(original[..HEADER_BYTES], FormatOf(original).value, PackageLink(original, sources));
    CursorGrows(|original|, sources, 0, |sources|);
    LinkRead(NewHeader(original, sources), at, Aligned(Cursor(|original|, sources, |sources|)), DirectorySize(|sources|),
             PackageSize(original, sources));
    assert At(h, at, 8) == At(original, at, 8) == 0;
  }

  /** The header when the commit stopped between flag and link and the old one was not put back as far as the flag. */
  lemma MixedParts(h: seq<Byte>, format: Format, link: seq<Byte>, written: nat, back: nat, b: seq<Byte>)
    requires |h| == HEADER_BYTES && !Flagged(h, format) && |link| == 24 && written <= HEADER_BYTES && back <= HEADER_BYTES
    requires back <= FlagsAt(format) + 1 < written <= LinkAt(format)
    requires b == Mixed(h, Mixed(Committed(h, format, link), h, written), back)
    ensures b[..72] == h[..72] && Flagged(b, format)
    ensures b[LinkAt(format)..LinkAt(format) + 16] == h[LinkAt(format)..LinkAt(format) + 16]
  {
    CommittedParts(h, format, link);
    var c := Committed(h, format, link);
    forall i | 0 <= i < HEADER_BYTES
      ensures b[i] == if back <= i < written then c[i] else h[i]
    {
    }
    assert b[FlagsAt(format) + 1] == c[FlagsAt(format) + 1];
    forall i | 0 <= i < 72 || LinkAt(format) <= i < LinkAt(format) + 16
      ensures b[i] == h[i]
    {
    }
  }

  lemma HeaderParts(bytes: seq<Byte>, h: seq<Byte>, from: nat, to: nat)
    requires |bytes| >= HEADER_BYTES && h == bytes[..HEADER_BYTES] && from <= to <= HEADER_BYTES
    ensures h[from..to] == bytes[from..to]
  {
  }

  /** A flagged header without a place for the directory. */
  lemma NoDirectory(bytes: seq<Byte>, h: seq<Byte>, format: Format, original: seq<Byte>)
    requires |bytes| >= HEADER_BYTES && h == bytes[..HEADER_BYTES] && Flagged(h, format)
    requires Bare(original) && FormatOf(original) == Some(format) && LinkUnused(original) && h[..72] == original[..72]
    requires h[LinkAt(format)..LinkAt(format) + 16] == original[LinkAt(format)..LinkAt(format) + 16]
    ensures FormatOf(bytes) == Some(format) && PackageSections(bytes) == None
  {
    var at := LinkAt(format);
    HeaderParts(bytes, h, 0, 72);
    SameFormat(bytes, original);
    HeaderParts(bytes, h, at, at + 16);
    assert bytes[at + 8..at + 16] == bytes[at..at + 16][8..] == original[at..at + 16][8..] == original[at + 8..at + 16];
  }

  /** The header is neither the old one nor the new one, and a reader finds a flag but no directory. */
  predicate Broken(bytes: seq<Byte>, original: seq<Byte>, sources: seq<Source>)
  {
    && Bare(original) && |bytes| >= HEADER_BYTES
    && bytes[..HEADER_BYTES] != original[..HEADER_BYTES] && bytes[..HEADER_BYTES] != NewHeader(original, sources)
    && FormatOf(bytes) == FormatOf(original) && PackageSections(bytes) == None
  }

  /** A write of the header that stops between flag and link. */
  predicate StopsShort(original: seq<Byte>, written: nat)
    requires Bare(original)
  {
    FlagsAt(FormatOf(original).value) + 1 < written <= LinkAt(FormatOf(original).value)
  }

  /**
   * A commit that stops between flag and link, and an old header that is not put back as far as the flag, leave a
   * header that is neither.
   */
  lemma NeitherHeader(bytes: seq<Byte>, original: seq<Byte>, sources: seq<Source>, written: nat, cut: Option<nat>,
                      header: Option<nat>)
    requires Bare(original) && LinkUnused(original) && Undone(bytes, original, sources, written, cut, header)
    requires PackageSize(original, sources) <= MAX_OFFSET && StopsShort(original, written)
    requires Reached(header, HEADER_BYTES) <= FlagsAt(FormatOf(original).value) + 1
    ensures Broken(bytes, original, sources)
  {
    var format, h, b := FormatOf(original).value, original[..HEADER_BYTES], bytes[..HEADER_BYTES];
    BareHeader(original);
    MixedParts(h, format, PackageLink(original, sources), written, Reached(header, HEADER_BYTES), b);
    HeaderParts(original, h, 0, 72);
    HeaderParts(original, h, LinkAt(format), LinkAt(format) + 16);
    NoDirectory(bytes, b, format, original);
    assert b[LinkAt(format)..LinkAt(format) + 8] == b[LinkAt(format)..LinkAt(format) + 16][..8];
    LinkDiffers(original, sources, b, LinkAt(format));
  }

  lemma LinkedDone(original: seq<Byte>, inputs: seq<Input>)
    requires CanEmbed(original, inputs)
    ensures IsPackage(Linked(original, Opened(inputs)), original, Opened(inputs))
    ensures |Linked(original, Opened(inputs))| == PackageSize(original, Opened(inputs))
  {
    FewInputs(inputs);
    LinkedIsPackage(original, Opened(inputs));
    LinkedBody(original, Opened(inputs), HEADER_BYTES, HEADER_BYTES);
  }

  lemma NothingLogged(log: seq<Event>, original: seq<Byte>, inputs: seq<Input>)
    ensures RunLogged(log, log, |log|, original, inputs)
  {
  }

  /** Nothing is written before the primary file and every input were found usable. */
  method Setup(file: PackageFile, inputs: seq<Input>) returns (ok: bool)
    modifies file`step
    ensures ok ==> Bare(file.bytes) && Acceptable(inputs)
    ensures NoFaults(file) && Bare(file.bytes) && Acceptable(inputs) ==> ok
  {
    if inputs == [] || |inputs| > 0xFFFF_FFFF {
      if Acceptable(inputs) {
        FewInputs(inputs);
      }
      return false;
    }
    ok := file.Try();
    if !ok || !Bare(file.bytes) {
      return false;
    }
    ok := OpenSources(file, inputs);
  }

  /**
   * Embedding in place. On success the file is a package of the original and the inputs, and all its bytes are
   * accounted for. On failure the body is never lost, and the header is what commit and undoing left of it, each as far
   * as it got. Whatever fails when: until the complete package is on disk, every state starts with the original.
   */
  method EmbedSectionsInPlace(file: PackageFile, inputs: seq<Input>)
    returns (ok: bool, stats: Stats, ghost trace: Trace)
    requires |file.bytes| <= MAX_OFFSET
    modifies file
    ensures ok ==> CanEmbed(old(file.bytes), inputs) && IsPackage(file.bytes, old(file.bytes), Opened(inputs))
    ensures ok ==> Accounted(stats, old(file.bytes), Opened(inputs)) && stats.package == |file.bytes|
    ensures !ok && file.bytes != old(file.bytes) ==>
              TraceOk(file.faults, file.step, |file.log|, trace)
              && Failed(file.bytes, old(file.bytes), inputs, trace.written, trace.cut, trace.back)
    ensures RunLogged(old(file.log), file.log, trace.commit, old(file.bytes), inputs)
    ensures NoFaults(file) ==> (ok <==> CanEmbed(old(file.bytes), inputs))
  {
    var original := file.bytes;
    stats, trace := Stats(0, 0, 0, 0, 0), Trace(|file.log|, 0, 0, None, None);
    ok := Setup(file, inputs);
    NothingLogged(file.log, original, inputs);
    if !ok {
      return;
    }
    ok, stats, trace := AttemptOrUndo(file, original, inputs);
    if ok {
      LinkedDone(original, inputs);
    }
  }

  /** The commit stops between flag and link, and nothing of the old header is put back. */
  predicate CutShortPlan(original: seq<Byte>, commit: Option<nat>, header: Option<nat>)
  {
    Bare(original) && LinkUnused(original) && commit.Some? && StopsShort(original, commit.value) && header == Some(0)
  }

  /**
   * The last steps under such a fault plan: a commit write that stops between flag and link, and a header that is not
   * put back at all.
   */
  method CommitCutShort(file: PackageFile, original: seq<Byte>, sources: seq<Source>)
    requires file.bytes == Complete(original, sources) && PackageSize(original, sources) <= MAX_OFFSET
    requires CutShortPlan(original, file.faults(file.step), file.faults(file.step + 2))
    modifies file
    ensures Broken(file.bytes, original, sources)
  {
    ghost var commit := file.faults(file.step);
    var _, written := Commit(file, original, sources);
    ghost var before := file.bytes;
    ghost var cut, back := RollBack(file, original);
    CutShort(file.bytes, original, sources, written, before, commit, cut, back);
  }

  lemma CutShort(bytes: seq<Byte>, original: seq<Byte>, sources: seq<Source>, written: nat, before: seq<Byte>,
                 commit: Option<nat>, cut: Option<nat>, header: Option<nat>)
    ensures CutShortPlan(original, commit, header) && written == Reached(commit, HEADER_BYTES)
            && CommittedPart(before, original, sources, written) && RolledBackTo(bytes, original, before, cut, header)
            && PackageSize(original, sources) <= MAX_OFFSET
            ==> Broken(bytes, original, sources)
  {
    if CutShortPlan(original, commit, header) && written == Reached(commit, HEADER_BYTES)
       && CommittedPart(before, original, sources, written) && RolledBackTo(bytes, original, before, cut, header)
       && PackageSize(original, sources) <= MAX_OFFSET {
      PartUndone(bytes, original, sources, written, before, cut, header);
      NeitherHeader(bytes, original, sources, written, cut, header);
    }
  }

  /** Power lost before the commit: what is on disk opens as the original does, with nothing embedded. */
  lemma InterruptedOpens(original: seq<Byte>, bytes: seq<Byte>)
    requires Bare(original) && original <= bytes
    ensures Bare(bytes) && FormatOf(bytes) == FormatOf(original) && PackageSections(bytes) == Some([])
  {
    assert bytes[..72] == original[..72];
    SameFormat(bytes, original);
    assert bytes[..|original|] == original;
  }
}
