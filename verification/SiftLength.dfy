/** How many bytes the writer spends on a call. */
module SiftLength {
  import opened Helpers
  import opened SiftFormat
  import opened SiftTrace

  /** The header of a record with a one-byte kind and a length. */
  const HEADER: nat := 6

  /** A straight-line instruction costs one byte, any other one ten; each data address costs eight more. */
  function InstrBytes(last: nat, i: Instr): nat {
    (if i.addr == last && !i.isPredicate then 1 else 10) + 8 * |i.addresses|
  }

  /** The bytes for code: what was not sent yet, with its address, and never twice. */
  function CodeBytes(icache: set<nat>, icache': set<nat>, perInsn: bool, size: nat): nat {
    if perInsn then |icache' - icache| * (HEADER + 8 + size) else |icache' - icache| * (HEADER + 8 + PAGE)
  }

  lemma InstrRecordLength(w: Writer, i: Instr)
    requires RecordOk(InstrRecord(w, i))
    ensures |Encode(InstrRecord(w, i))| == InstrBytes(w.last, i)
  {
  }

  lemma OneMore(a: set<nat>, b: set<nat>, x: nat)
    requires x in b && x !in a
    ensures |b - a| == |b - (a + {x})| + 1
  {
    assert b - a == (b - (a + {x})) + {x};
  }

  /** No page before base is among those from base on. */
  lemma {:induction false} PageSetAbove(base: nat, last: nat)
    ensures forall p | p in PageSet(base, last) :: base <= p <= last
    decreases last + PAGE - base
  {
    if base <= last {
      PageSetAbove(base + PAGE, last);
    }
  }

  lemma {:induction false} PagesLength(icache: set<nat>, code: Code, base: nat, last: nat)
    requires AllOk(PageRecords(icache, code, base, last))
    ensures |EncodeAll(PageRecords(icache, code, base, last))| == |PageSet(base, last) - icache| * (HEADER + 8 + PAGE)
    decreases last + PAGE - base
  {
    if base <= last {
      var rest, later := PageRecords(icache, code, base + PAGE, last), PageSet(base + PAGE, last);
      PageSetAbove(base + PAGE, last);
      assert later - icache == later - (icache + {base});
      if base in icache {
        assert PageRecords(icache, code, base, last) == rest;
        assert PageSet(base, last) - icache == later - icache;
        PagesLength(icache, code, base + PAGE, last);
      } else {
        var page := PageRecord(code, base);
        assert PageRecords(icache, code, base, last) == [page] + rest;
        assert ([page] + rest)[1..] == rest && ([page] + rest)[0] == page;
        assert AllOk(rest) && RecordOk(page);
        assert PageSet(base, last) - icache == (later - icache) + {base};
        PagesLength(icache, code, base + PAGE, last);
        assert |Encode(page)| == HEADER + 8 + PAGE;
      }
    }
  }

  lemma {:induction false} MapsLength(va2pa: map<nat, nat>, touches: seq<Touch>)
    requires AllOk(MapRecords(va2pa, touches))
    ensures va2pa.Keys <= Mapped(va2pa, touches).Keys
    ensures |EncodeAll(MapRecords(va2pa, touches))| == 22 * |Mapped(va2pa, touches).Keys - va2pa.Keys|
    decreases |touches|
  {
    if touches != [] {
      var t := touches[0];
      if Fresh(va2pa, t) {
        var vp := t.va / PAGE;
        var va2pa1 := va2pa[vp := t.pp];
        var rest := MapRecords(va2pa1, touches[1..]);
        assert MapRecords(va2pa, touches) == [MapRecord(vp, t.pp)] + rest;
        assert ([MapRecord(vp, t.pp)] + rest)[1..] == rest;
        assert AllOk(rest);
        MapsLength(va2pa1, touches[1..]);
        assert va2pa1.Keys == va2pa.Keys + {vp};
        OneMore(va2pa.Keys, Mapped(va2pa1, touches[1..]).Keys, vp);
        assert |Encode(MapRecord(vp, t.pp))| == 22;
      } else {
        MapsLength(va2pa, touches[1..]);
      }
    } else {
      assert va2pa.Keys - va2pa.Keys == {};
    }
  }

  /** The whole call: code that was not sent yet, mappings that were not sent yet, and the instruction or report. */
  lemma CallLength(w: Writer, code: Code, mode: Mode, c: Call)
    requires Complete(c) && AllOk(CallRecords(w, code, mode, c))
    ensures var w' := CallNext(w, mode, c);
      && w.icache <= w'.icache && w.va2pa.Keys <= w'.va2pa.Keys
      && |EncodeAll(CallRecords(w, code, mode, c))| ==
           22 * |w'.va2pa.Keys - w.va2pa.Keys|
           + match c
             case Execute(i, _) =>
               CodeBytes(w.icache, w'.icache, mode.perInsn, i.size) + InstrBytes(w.last, i)
             case Report(_, payload, _) => HEADER + |payload|
  {
    hide Offered, Encode, InstrRecord, PageRecords, PageSet, MapRecords, Mapped, PageOf;
    var maps := MapRecords(w.va2pa, Offered(mode, c));
    match c
    case Execute(i, _) =>
      var codes, rec := CodeRecords(w, code, mode.perInsn, i), InstrRecord(w, i);
      PartsOk(codes, maps, rec);
      CodeLength(w, code, mode, i);
      MapsLength(w.va2pa, Offered(mode, c));
      InstrRecordLength(w, i);
    case Report(kind, payload, _) =>
      assert [] + maps == maps;
      PartsOk([], maps, Other(kind, payload));
      MapsLength(w.va2pa, Offered(mode, c));
      OtherLength(kind, payload);
  }

  lemma OtherLength(kind: Byte, payload: seq<Byte>)
    requires RecordOk(Other(kind, payload))
    ensures |Encode(Other(kind, payload))| == HEADER + |payload|
  {
  }

  lemma PartsOk(codes: seq<Record>, maps: seq<Record>, rec: Record)
    requires AllOk(codes + maps + [rec])
    ensures AllOk(codes) && AllOk(maps) && RecordOk(rec)
    ensures |EncodeAll(codes + maps + [rec])| == |EncodeAll(codes)| + |EncodeAll(maps)| + |Encode(rec)|
  {
    hide RecordOk, Encode;
    var all := codes + maps + [rec];
    assert forall k | 0 <= k < |codes| :: codes[k] == all[k];
    assert forall k | 0 <= k < |maps| :: maps[k] == all[|codes| + k];
    assert rec == all[|codes| + |maps|];
    EncodeAllConcat(codes, maps);
    EncodeAllConcat(codes + maps, [rec]);
    assert EncodeAll([rec]) == Encode(rec) + EncodeAll([]);
  }

  lemma CodeLength(w: Writer, code: Code, mode: Mode, i: Instr)
    requires i.size > 0 && AllOk(CodeRecords(w, code, mode.perInsn, i))
    ensures |EncodeAll(CodeRecords(w, code, mode.perInsn, i))|
         == CodeBytes(w.icache, CodeSent(w, mode.perInsn, i), mode.perInsn, i.size)
  {
    hide PageRecords, PageSet, Encode;
    var recs := CodeRecords(w, code, mode.perInsn, i);
    if mode.perInsn {
      if i.addr in w.icache {
        assert w.icache + {i.addr} - w.icache == {};
      } else {
        var payload := Bytes(8, i.addr) + CodeAt(code, i.addr, i.size);
        assert recs == [Other(ICACHE_VARIABLE, payload)];
        assert w.icache + {i.addr} - w.icache == {i.addr};
        OtherLength(ICACHE_VARIABLE, payload);
        assert EncodeAll(recs) == Encode(recs[0]) + EncodeAll([]);
      }
    } else {
      var base, last := PageOf(i.addr), PageOf(i.addr + i.size - 1);
      PagesLength(w.icache, code, base, last);
      assert w.icache + PageSet(base, last) - w.icache == PageSet(base, last) - w.icache;
    }
  }

  /** The same in numbers, for the bytes before and after an instruction. */
  lemma InstructionLength(w: Writer, w': Writer, code: Code, mode: Mode, i: Instr, entries: seq<nat>,
                          before: seq<Byte>, after: seq<Byte>)
    requires Complete(Execute(i, entries)) && AllOk(CallRecords(w, code, mode, Execute(i, entries)))
    requires w' == CallNext(w, mode, Execute(i, entries))
    requires after == before + EncodeAll(CallRecords(w, code, mode, Execute(i, entries)))
    ensures w.icache <= w'.icache && w.va2pa.Keys <= w'.va2pa.Keys
    ensures |after| == |before|
      + CodeBytes(w.icache, w'.icache, mode.perInsn, i.size)
      + 22 * |w'.va2pa.Keys - w.va2pa.Keys|
      + (if i.addr == w.last && !i.isPredicate then 1 else 10) + 8 * |i.addresses|
  {
    hide CallRecords, CallNext, EncodeAll, AllOk, CodeBytes;
    CallLength(w, code, mode, Execute(i, entries));
  }

  lemma ReportLength(w: Writer, w': Writer, code: Code, mode: Mode, kind: Byte, payload: seq<Byte>,
                     touches: seq<Touch>, before: seq<Byte>, after: seq<Byte>)
    requires AllOk(CallRecords(w, code, mode, Report(kind, payload, touches)))
    requires w' == CallNext(w, mode, Report(kind, payload, touches))
    requires after == before + EncodeAll(CallRecords(w, code, mode, Report(kind, payload, touches)))
    ensures w.va2pa.Keys <= w'.va2pa.Keys
    ensures |after| == |before| + 22 * |w'.va2pa.Keys - w.va2pa.Keys| + 6 + |payload|
  {
    hide CallRecords, CallNext, EncodeAll, AllOk;
    CallLength(w, code, mode, Report(kind, payload, touches));
  }
}
