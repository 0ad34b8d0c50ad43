/** A trace from the first call of the writer to the last call of the reader. */
module SiftRoundTrip {
  import opened Helpers
  import opened SiftFormat
  import opened SiftTrace
  import SiftWriter
  import SiftReader

  /** The bytes of the first of these calls come first. */
  lemma FirstWritten(w: Writer, code: Code, length: nat -> nat, mode: Mode, calls: seq<Call>, before: seq<Byte>)
    requires CallsOk(calls, length) && calls != []
    ensures Complete(calls[0]) && CallOk(calls[0], length) && CallsOk(calls[1..], length)
    ensures var recs := CallRecords(w, code, mode, calls[0]);
      var tail := Written(CallNext(w, mode, calls[0]), code, length, mode, calls[1..]);
      && AllOk(recs) && AllOk(tail) && AllOk(Written(w, code, length, mode, calls))
      && before + EncodeAll(Written(w, code, length, mode, calls)) == (before + EncodeAll(recs)) + EncodeAll(tail)
  {
    hide CallsOk, CallOk, CallRecords, CallNext, Written, EncodeAll;
    FirstCallOk(calls, length);
    WrittenSplits(w, code, length, mode, calls, []);
    var all, recs := EncodeAll(Written(w, code, length, mode, calls)), EncodeAll(CallRecords(w, code, mode, calls[0]));
    var tail := EncodeAll(Written(CallNext(w, mode, calls[0]), code, length, mode, calls[1..]));
    assert all + [] == all && tail + [] == tail;
    assert before + (recs + tail) == (before + recs) + tail;
  }

  /** Makes the writer write a whole run. */
  method WriteTrace(code: Code, mode: Mode, calls: seq<Call>, ghost length: nat -> nat) returns (output: seq<Byte>)
    requires CallsOk(calls, length)
    ensures AllOk(Written(NEW_WRITER, code, length, mode, calls))
    ensures output == EncodeAll(Written(NEW_WRITER, code, length, mode, calls))
  {
    hide CallsOk, Written, CallRecords, CallNext, AllOk, EncodeAll, TouchesOk, AllWords;
    var writer := new SiftWriter.Writer(code, mode);
    WrittenOk(NEW_WRITER, code, length, mode, calls);
    ghost var all := EncodeAll(Written(NEW_WRITER, code, length, mode, calls));
    assert calls[0..] == calls && [] + all == all;
    var k := 0;
    while k < |calls|
      invariant 0 <= k <= |calls| && fresh(writer) && writer.Valid()
      invariant CallsOk(calls[k..], length) && AllOk(Written(writer.State(), code, length, mode, calls[k..]))
      invariant all == writer.output + EncodeAll(Written(writer.State(), code, length, mode, calls[k..]))
    {
      var c := calls[k];
      assert calls[k..][0] == c && calls[k..][1..] == calls[k + 1..];
      FirstWritten(writer.State(), code, length, mode, calls[k..], writer.output);
      match c {
        case Execute(i, entries) =>
          writer.Instruction(i.addr, i.size, i.addresses, i.branch, i.taken, i.isPredicate, i.executed, entries);
          assert Instr(i.addr, i.size, i.addresses, i.branch, i.taken, i.isPredicate, i.executed) == i;
        case Report(kind, payload, touches) =>
          writer.Report(kind, payload, touches);
      }
      k := k + 1;
    }
    assert calls[k..] == [];
    EndOnly(writer.State(), code, length, mode);
    writer.End();
    output := writer.output;
  }

  lemma EndOnly(w: Writer, code: Code, length: nat -> nat, mode: Mode)
    ensures CallsOk([], length) && Written(w, code, length, mode, []) == [Other(END, [])]
  {
  }

  /** Calls `Read` up to the end of a trace, or until it fails. */
  method ReadTrace(input: seq<Byte>, physical: bool, leftover: nat -> Page)
    returns (ok: bool, events: seq<Event>, reader: SiftReader.Reader)
    requires InstructionsTaken(NEW_READER, leftover, input)
    ensures reader.physical == physical
    ensures var run := ReadAll(NEW_READER, leftover, input);
      && (ok <==> run.Run?)
      && (ok ==> run == Run(reader.State(), events))
  {
    hide ReadAll, ReadNext, InstructionsTaken, Before;
    reader := new SiftReader.Reader(input, physical, leftover);
    ghost var run := ReadAll(NEW_READER, leftover, input);
    events := [];
    BeforeConcat([], [], run);
    while true
      invariant fresh(reader) && fresh(reader.scache.Values) && reader.leftover == leftover
          && reader.physical == physical
      invariant reader.CacheOk() && !reader.seenEnd
      invariant InstructionsTaken(reader.State(), leftover, reader.input)
      invariant run == Before(events, ReadAll(reader.State(), leftover, reader.input))
      decreases |reader.input|
    {
      ghost var next := ReadNext(reader.State(), leftover, reader.input);
      ReadAllByNext(reader.State(), leftover, reader.input);
      BeforeRefused(events);
      var reported := |reader.handled|;
      var r := reader.Read();
      if r.Failed? {
        return false, events, reader;
      }
      var new' := reader.handled[reported..] + [if r.NoMore? then Ended else Executed(r.instr, r.sinst.data)];
      BeforeConcat(events, new', ReadAll(reader.State(), leftover, reader.input));
      events := events + new';
      if r.NoMore? {
        return true, events, reader;
      }
    }
  }

  /** Writes a trace and reads it back: reading succeeds if and only if no system call and no output is empty, gives
      exactly the calls if and only if, moreover, skipped instructions show, and leaves a reader that translates
      addresses as the writer saw them. */
  method WriteThenRead(code: Code, mode: Mode, calls: seq<Call>, leftover: nat -> Page, ghost length: nat -> nat)
    returns (ok: bool, events: seq<Event>, reader: SiftReader.Reader)
    requires CallsOk(calls, length)
    ensures ok <==> AllTaken(calls)
    ensures ok && events == AllTold(code, calls) <==> AllTaken(calls) && SkipsShow(0, calls)
    ensures ok ==> forall va: nat ::
      Translate(reader.State(), reader.physical, va) == Translated(length, mode, calls, va)
  {
    hide CallsOk, AllTaken, AllTold, SkipsShow, Written, EncodeAll, ReadAll, InstructionsTaken, Translate, Translated;
    var output := WriteTrace(code, mode, calls, length);
    assert output + [] == output;
    TraceRoundTrip(leftover, code, length, mode, calls, []);
    ok, events, reader := ReadTrace(output, mode.physical, leftover);
    if ok {
      forall va: nat ensures Translate(reader.State(), reader.physical, va) == Translated(length, mode, calls, va) {
        AddressesTranslate(leftover, code, length, mode, calls, [], va);
      }
    }
  }
}
