/** The writing side of a trace: the bytes it appends are the records the trace format asks for. */
module SiftWriter {
  import opened Helpers
  import opened SiftFormat
  import opened SiftLength
  import Trace = SiftTrace
  import opened SiftTrace

  class Writer {
    const getCode: Code
    const mode: Mode
    var output: seq<Byte>
    var lastAddress: nat
    var icache: set<nat>
    var va2pa: set<nat>
    ghost var mappings: map<nat, nat>

    ghost predicate Valid()
      reads `va2pa, `mappings
    {
      mappings.Keys == va2pa
    }

    ghost function State(): Trace.Writer
      reads `lastAddress, `icache, `mappings
    {
      Trace.Writer(lastAddress, icache, mappings)
    }

    constructor (getCode: Code, mode: Mode)
      ensures this.getCode == getCode && this.mode == mode
      ensures Valid() && output == [] && State() == NEW_WRITER
    {
      this.getCode := getCode;
      this.mode := mode;
      output, lastAddress, icache, va2pa, mappings := [], 0, {}, {}, map[];
    }

    /** Appends a record with a one-byte kind, its length and its payload. */
    method WriteOther(kind: Byte, payload: seq<Byte>)
      requires |payload| < 0x1_0000_0000
      modifies `output
      ensures output == old(output) + EncodeAll([Other(kind, payload)])
    {
      EncodeOne(Other(kind, payload));
      output := output + [0, kind];
      output := output + Bytes(4, |payload|);
      output := output + payload;
    }

    method WritePages(addr: nat, size: nat)
      requires 0 < size
      modifies `output, `icache
      ensures AllOk(PageRecords(old(icache), getCode, PageOf(addr), PageOf(addr + size - 1)))
      ensures output == old(output) + EncodeAll(PageRecords(old(icache), getCode, PageOf(addr),
          PageOf(addr + size - 1)))
      ensures icache == old(icache) + PageSet(PageOf(addr), PageOf(addr + size - 1))
    {
      hide PageOf, PageRecords, PageSet, EncodeAll, Encode, AllOk, CodeAt, Bytes, RecordOk;
      var baseAddr := PageOf(addr);
      ghost var first, last, sent := baseAddr, PageOf(addr + size - 1), old(icache);
      ghost var done: seq<Byte> := [];
      PagesAreOk(sent, getCode, first, last);
      while baseAddr <= PageOf(addr + size - 1)
        invariant AllOk(PageRecords(sent, getCode, baseAddr, last))
        invariant output == old(output) + done
        invariant done + EncodeAll(PageRecords(sent, getCode, baseAddr, last))
            == EncodeAll(PageRecords(sent, getCode, first, last))
        invariant icache + PageSet(baseAddr, last) == sent + PageSet(first, last)
        invariant forall b | b >= baseAddr :: b in icache <==> b in sent
        decreases last + PAGE - baseAddr
      {
        PageRecordsNext(sent, getCode, baseAddr, last);
        PageSetNext(baseAddr, last);
        ghost var here := if baseAddr in sent then [] else EncodeAll([PageRecord(getCode, baseAddr)]);
        if baseAddr !in icache {
          WriteOther(ICACHE, Bytes(8, baseAddr) + CodeAt(getCode, baseAddr, PAGE));
          icache := icache + {baseAddr};
        }
        assert done + (here + EncodeAll(PageRecords(sent, getCode, baseAddr + PAGE, last)))
            == (done + here) + EncodeAll(PageRecords(sent, getCode, baseAddr + PAGE, last));
        assert (old(output) + done) + here == old(output) + (done + here);
        done := done + here;
        baseAddr := baseAddr + PAGE;
      }
      PagesDone(sent, getCode, baseAddr, last);
      assert done + [] == done;
    }

    /** Appends what is missing of the instruction's code. */
    method WriteCode(ghost i: Instr, addr: nat, size: nat)
      requires 0 < size < 16 && addr + size <= WORD - PAGE && addr == i.addr && size == i.size
      modifies `output, `icache
      ensures AllOk(CodeRecords(old(State()), getCode, mode.perInsn, i))
      ensures output == old(output) + EncodeAll(CodeRecords(old(State()), getCode, mode.perInsn, i))
      ensures icache == CodeSent(old(State()), mode.perInsn, i)
    {
      hide PageRecords, PageSet, PageOf, EncodeAll, Encode, CodeAt, Bytes;
      if mode.perInsn {
        NothingEncoded();
        if addr !in icache {
          WriteOther(ICACHE_VARIABLE, Bytes(8, addr) + CodeAt(getCode, addr, size));
          icache := icache + {addr};
        }
      } else {
        WritePages(addr, size);
      }
    }

    /** Appends the record of an instruction, in the short form if it follows the one before it. */
    method WriteRecord(addr: nat, size: nat, addresses: seq<nat>, branch: bool, taken: bool, isPredicate: bool,
                       executed: bool)
      requires 0 < size < 16 && |addresses| <= 2 && AllWords(addresses) && addr < WORD
      modifies `output, `lastAddress
      ensures lastAddress == addr + size
      ensures var r := InstrRecord(old(State()), Instr(addr, size, addresses, branch, taken, isPredicate, executed));
        RecordOk(r) && output == old(output) + Encode(r)
      ensures |output| == |old(output)| + (if addr == old(lastAddress) && !isPredicate then 1 else 10) + 8 * |addresses|
    {
      hide Bytes, Words, SimpleByte, FlagsByte, AllWords;
      ghost var before := output;
      if addr == lastAddress && !isPredicate {
        output := output + [SimpleByte(size, |addresses|, branch, taken)];
      } else {
        output := output + ([16 * size, FlagsByte(|addresses|, branch, taken, isPredicate, executed)] + Bytes(8, addr));
        lastAddress := addr;
      }
      output := output + Words(addresses);
      lastAddress := lastAddress + size;
    }

    /** `send_va2pa`: offers the page of an address to the reader; pp is what the page table says of it. */
    method SendVa2pa(va: nat, pp: nat)
      requires Valid() && va < WORD && pp < WORD
      modifies `output, `va2pa, `mappings
      ensures Valid()
      ensures var touches := if mode.physical then [Touch(va, pp)] else [];
        && AllOk(MapRecords(old(mappings), touches))
        && output == old(output) + EncodeAll(MapRecords(old(mappings), touches))
        && mappings == Mapped(old(mappings), touches)
    {
      hide Bytes, EncodeAll, Encode, AllOk;
      NothingEncoded();
      OneTouch(mappings, Touch(va, pp));
      if mode.physical {
        var vp := va / PAGE;
        if vp !in va2pa {
          if pp != 0 {
            EncodeOne(MapRecord(vp, pp));
            WriteOther(LOGICAL2PHYSICAL, Bytes(8, vp) + Bytes(8, pp));
            va2pa := va2pa + {vp};
            mappings := mappings[vp := pp];
          }
        }
      }
    }

    /** Offers the pages of an instruction and of its data addresses. */
    method SendMappings(ghost i: Instr, addr: nat, addresses: seq<nat>, entries: seq<nat>)
      requires Valid() && addr == i.addr && addresses == i.addresses && |entries| == 1 + |addresses|
      requires addr < WORD && AllWords(addresses) && AllWords(entries)
      modifies `output, `va2pa, `mappings
      ensures Valid()
      ensures var touches := Offered(mode, Execute(i, entries));
        && AllOk(MapRecords(old(mappings), touches))
        && output == old(output) + EncodeAll(MapRecords(old(mappings), touches))
        && mappings == Mapped(old(mappings), touches)
    {
      hide EncodeAll, Encode, AllOk, RecordOk, MapRecords, Mapped;
      ghost var before := output;
      ghost var touches := InstrTouches(i, entries);
      SendVa2pa(addr, entries[0]);
      assert touches[..1] == [Touch(addr, entries[0])];
      for k := 0 to |addresses|
        invariant Valid()
        invariant TouchesSent(before, old(mappings), if mode.physical then touches[..k + 1] else [])
      {
        ghost var out1, maps1 := output, mappings;
        SendVa2pa(addresses[k], entries[k + 1]);
        if mode.physical {
          assert touches[..k + 2] == touches[..k + 1] + [Touch(addresses[k], entries[k + 1])];
          TouchesJoin(old(mappings), touches[..k + 1], [Touch(addresses[k], entries[k + 1])], before);
        } else {
          NoTouch(maps1);
          assert out1 + [] == out1;
        }
      }
      assert touches[..|touches|] == touches;
    }

    /** The records for these addresses have been written, and nothing else. */
    ghost predicate TouchesSent(before: seq<Byte>, maps: map<nat, nat>, touches: seq<Touch>)
      reads `output, `mappings
    {
      && AllOk(MapRecords(maps, touches))
      && output == before + EncodeAll(MapRecords(maps, touches))
      && mappings == Mapped(maps, touches)
    }

    /** Appends the instruction, after its code and the mappings of its addresses. */
    method Instruction(addr: nat, size: nat, addresses: seq<nat>, branch: bool, taken: bool, isPredicate: bool,
                       executed: bool, entries: seq<nat>)
      requires Valid() && 0 < size < 16 && |addresses| <= 2 && AllWords(addresses) && addr + size <= WORD - PAGE
      requires |entries| == 1 + |addresses| && AllWords(entries)
      modifies `output, `lastAddress, `icache, `va2pa, `mappings
      ensures Valid()
      ensures var c := Execute(Instr(addr, size, addresses, branch, taken, isPredicate, executed), entries);
        && AllOk(CallRecords(old(State()), getCode, mode, c))
        && output == old(output) + EncodeAll(CallRecords(old(State()), getCode, mode, c))
        && State() == CallNext(old(State()), mode, c)
      ensures lastAddress == addr + size && old(icache) <= icache && old(va2pa) <= va2pa
      ensures |output| == |old(output)|
        + CodeBytes(old(icache), icache, mode.perInsn, size)
        + 22 * |va2pa - old(va2pa)|
        + (if addr == old(lastAddress) && !isPredicate then 1 else 10) + 8 * |addresses|
    {
      hide CallRecords, CodeRecords, CodeSent, CodeBytes, PageOf;
      hide MapRecords, Mapped, Offered, EncodeAll, AllWords, AllOk, Encode, RecordOk;
      ghost var i := Instr(addr, size, addresses, branch, taken, isPredicate, executed);
      ghost var w := State();
      WriteCode(i, addr, size);
      SendMappings(i, addr, addresses, entries);
      WriteRecord(addr, size, addresses, branch, taken, isPredicate, executed);
      InstructionEncodes(w, getCode, mode, i, entries, old(output));
      assert State() == CallNext(w, mode, Execute(i, entries));
      InstructionLength(w, State(), getCode, mode, i, entries, old(output), output);
    }

    /** A request or report with this payload; a system call offers the pages of up to one argument, a cache-only
        record those of two addresses. */
    method Report(kind: Byte, payload: seq<Byte>, touches: seq<Touch>)
      requires Valid() && |payload| < 0x1_0000_0000 && TouchesOk(touches)
      modifies `output, `va2pa, `mappings
      ensures Valid()
      ensures var c := Call.Report(kind, payload, touches);
        && AllOk(CallRecords(old(State()), getCode, mode, c))
        && output == old(output) + EncodeAll(CallRecords(old(State()), getCode, mode, c))
        && State() == CallNext(old(State()), mode, c)
      ensures old(va2pa) <= va2pa
      ensures |output| == |old(output)| + 22 * |va2pa - old(va2pa)| + 6 + |payload|
    {
      hide CallRecords, EncodeAll, Encode, AllOk, RecordOk, MapRecords, Mapped;
      ghost var before, w := output, State();
      NoTouch(mappings);
      assert before + [] == before;
      for k := 0 to |touches|
        invariant Valid()
        invariant TouchesSent(before, old(mappings), if mode.physical then touches[..k] else [])
      {
        ghost var out1, maps1 := output, mappings;
        SendVa2pa(touches[k].va, touches[k].pp);
        if mode.physical {
          assert touches[..k + 1] == touches[..k] + [touches[k]];
          TouchesJoin(old(mappings), touches[..k], [touches[k]], before);
        } else {
          NoTouch(maps1);
          assert out1 + [] == out1;
        }
      }
      assert touches[..|touches|] == touches;
      WriteOther(kind, payload);
      ReportEncodes(w, getCode, mode, kind, payload, touches, before);
      ReportLength(w, State(), getCode, mode, kind, payload, touches, before, output);
    }

    /** The end of the trace. */
    method End()
      modifies `output
      ensures output == old(output) + EncodeAll([Other(END, [])])
    {
      WriteOther(END, []);
    }
  }

  lemma EncodeOne(r: Record)
    requires RecordOk(r)
    ensures AllOk([r]) && EncodeAll([r]) == Encode(r)
  {
    assert EncodeAll([r]) == Encode(r) + EncodeAll([]);
  }

  lemma NothingEncoded()
    ensures AllOk([]) && EncodeAll([]) == []
  {
  }

  lemma ReportEncodes(w: Trace.Writer, code: Code, mode: Mode, kind: Byte, payload: seq<Byte>, touches: seq<Touch>,
                      before: seq<Byte>)
    requires |payload| < 0x1_0000_0000
    requires AllOk(MapRecords(w.va2pa, Offered(mode, Report(kind, payload, touches))))
    ensures AllOk(CallRecords(w, code, mode, Report(kind, payload, touches))) && AllOk([Other(kind, payload)])
    ensures before + EncodeAll(CallRecords(w, code, mode, Report(kind, payload, touches)))
         == before + EncodeAll(MapRecords(w.va2pa, Offered(mode, Report(kind, payload, touches))))
            + EncodeAll([Other(kind, payload)])
  {
    EncodeOne(Other(kind, payload));
    hide MapRecords, Offered, EncodeAll, AllOk, Encode, RecordOk;
    EncodeAllConcat(MapRecords(w.va2pa, Offered(mode, Report(kind, payload, touches))), [Other(kind, payload)]);
  }

  lemma InstructionEncodes(w: Trace.Writer, code: Code, mode: Mode, i: Instr, entries: seq<nat>, before: seq<Byte>)
    requires Complete(Execute(i, entries))
    requires AllOk(CodeRecords(w, code, mode.perInsn, i))
    requires AllOk(MapRecords(w.va2pa, Offered(mode, Execute(i, entries))))
    requires RecordOk(InstrRecord(w, i))
    ensures AllOk(CallRecords(w, code, mode, Execute(i, entries)))
    ensures before + EncodeAll(CallRecords(w, code, mode, Execute(i, entries)))
         == before + EncodeAll(CodeRecords(w, code, mode.perInsn, i))
            + EncodeAll(MapRecords(w.va2pa, Offered(mode, Execute(i, entries))))
            + Encode(InstrRecord(w, i))
  {
    hide CodeRecords, MapRecords, Offered, InstrRecord, EncodeAll, AllOk, Encode, RecordOk;
    var codes, maps := CodeRecords(w, code, mode.perInsn, i), MapRecords(w.va2pa, Offered(mode, Execute(i, entries)));
    EncodeOne(InstrRecord(w, i));
    EncodeAllConcat(codes, maps);
    EncodeAllConcat(codes + maps, [InstrRecord(w, i)]);
  }

  lemma NoTouch(va2pa: map<nat, nat>)
    ensures MapRecords(va2pa, []) == [] && Mapped(va2pa, []) == va2pa
    ensures AllOk(MapRecords(va2pa, [])) && EncodeAll(MapRecords(va2pa, [])) == []
  {
  }

  lemma OneTouch(va2pa: map<nat, nat>, t: Touch)
    ensures MapRecords(va2pa, [t]) == if Fresh(va2pa, t) then [MapRecord(t.va / PAGE, t.pp)] else []
    ensures Mapped(va2pa, [t]) == if Fresh(va2pa, t) then va2pa[t.va / PAGE := t.pp] else va2pa
    ensures MapRecords(va2pa, []) == [] && Mapped(va2pa, []) == va2pa
  {
    var va2pa1 := va2pa[t.va / PAGE := t.pp];
    assert MapRecords(va2pa1, []) == [] && MapRecords(va2pa, []) == [];
    assert [t][1..] == [];
  }

  lemma {:induction false} RecordsJoin(va2pa: map<nat, nat>, a: seq<Touch>, b: seq<Touch>)
    ensures MapRecords(va2pa, a + b) == MapRecords(va2pa, a) + MapRecords(Mapped(va2pa, a), b)
    decreases |a|
  {
    if a == [] {
      assert a + b == b;
    } else {
      var t := a[0];
      assert (a + b)[1..] == a[1..] + b;
      RecordsJoin(if Fresh(va2pa, t) then va2pa[t.va / PAGE := t.pp] else va2pa, a[1..], b);
    }
  }

  lemma TouchesJoin(va2pa: map<nat, nat>, a: seq<Touch>, b: seq<Touch>, before: seq<Byte>)
    requires AllOk(MapRecords(va2pa, a)) && AllOk(MapRecords(Mapped(va2pa, a), b))
    ensures AllOk(MapRecords(va2pa, a + b)) && Mapped(va2pa, a + b) == Mapped(Mapped(va2pa, a), b)
    ensures before + EncodeAll(MapRecords(va2pa, a + b))
         == before + EncodeAll(MapRecords(va2pa, a)) + EncodeAll(MapRecords(Mapped(va2pa, a), b))
  {
    hide EncodeAll, AllOk;
    RecordsJoin(va2pa, a, b);
    MappedConcat(va2pa, a, b);
    EncodeAllConcat(MapRecords(va2pa, a), MapRecords(Mapped(va2pa, a), b));
  }

  lemma PageSetNext(base: nat, last: nat)
    requires base <= last
    ensures PageSet(base, last) == {base} + PageSet(base + PAGE, last)
  {
  }

  lemma PagesDone(icache: set<nat>, code: Code, base: nat, last: nat)
    requires base > last
    ensures AllOk(PageRecords(icache, code, base, last))
    ensures EncodeAll(PageRecords(icache, code, base, last)) == [] && PageSet(base, last) == {}
  {
  }

  lemma {:induction false} PagesAreOk(icache: set<nat>, code: Code, base: nat, last: nat)
    ensures AllOk(PageRecords(icache, code, base, last))
    decreases last + PAGE - base
  {
    PagesAreOrdinary(icache, code, base, last);
  }

  lemma PageRecordsNext(icache: set<nat>, code: Code, base: nat, last: nat)
    requires base <= last
    ensures AllOk(PageRecords(icache, code, base, last)) && AllOk(PageRecords(icache, code, base + PAGE, last))
    ensures AllOk([PageRecord(code, base)])
    ensures EncodeAll(PageRecords(icache, code, base, last))
         == (if base in icache then [] else EncodeAll([PageRecord(code, base)]))
            + EncodeAll(PageRecords(icache, code, base + PAGE, last))
  {
    PagesAreOk(icache, code, base, last);
    PagesAreOk(icache, code, base + PAGE, last);
    EncodeOne(PageRecord(code, base));
    if base !in icache {
      EncodeAllConcat([PageRecord(code, base)], PageRecords(icache, code, base + PAGE, last));
    } else {
      var tail := EncodeAll(PageRecords(icache, code, base + PAGE, last));
      assert [] + PageRecords(icache, code, base + PAGE, last) == PageRecords(icache, code, base + PAGE, last);
      assert [] + tail == tail;
    }
  }
}
