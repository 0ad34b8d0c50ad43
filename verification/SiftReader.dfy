/** The reading side of a trace: code pages, static instructions with their probable successor, and one call of Read. */
module SiftReader {
  import opened Helpers
  import opened SiftFormat
  import Trace = SiftTrace
  import opened SiftTrace

  /** An instruction of the program, with a link to the one that followed it the first time. */
  class StaticInstruction {
    const addr: nat
    const size: nat
    const data: seq<Byte>
    var next: StaticInstruction?

    constructor (addr: nat, size: nat, data: seq<Byte>)
      ensures this.addr == addr && this.size == size && this.data == data && next == null
    {
      this.addr, this.size, this.data := addr, size, data;
      next := null;
    }
  }

  datatype Lookup = Refuse | Found(sinst: StaticInstruction)

  datatype ReadResult = Failed | NoMore | Decoded(instr: Instr, sinst: StaticInstruction)

  class Reader {
    const leftover: nat -> Page
    const physical: bool  // from the header of the trace
    var input: seq<Byte>
    var lastAddress: nat
    var icache: map<nat, Page>
    var scache: map<nat, StaticInstruction>
    var vcache: map<nat, nat>
    var lastSinst: StaticInstruction?
    var seenEnd: bool
    var handled: seq<Event>

    /** Every link, and the last instruction, are what the cache holds under their own address. */
    ghost predicate CacheOk()
      reads `scache, `lastSinst, scache.Values`next
    {
      && (forall a | a in scache :: scache[a].addr == a)
      && (forall a | a in scache :: Cached(scache, scache[a].next))
      && Cached(scache, lastSinst)
    }

    function Statics(): map<nat, Static>
      reads `scache
    {
      map a | a in scache :: Static(scache[a].size, scache[a].data)
    }

    function State(): Trace.Reader
      reads `lastAddress, `icache, `scache, `vcache
    {
      Trace.Reader(lastAddress, icache, Statics(), vcache)
    }

    constructor (input: seq<Byte>, physical: bool, leftover: nat -> Page)
      ensures this.input == input && this.physical == physical && this.leftover == leftover
      ensures CacheOk() && State() == NEW_READER && scache == map[] && !seenEnd && handled == []
    {
      this.input, this.physical, this.leftover := input, physical, leftover;
      lastAddress, icache, scache, vcache := 0, map[], map[], map[];
      lastSinst, seenEnd, handled := null, false, [];
    }

    /** Gathers the bytes of an instruction from the code pages. */
    method DecodeInstruction(addr: nat, size: nat) returns (r: Lookup)
      ensures r.Refuse? <==> Fetch(icache, addr, size).None?
      ensures r.Found? ==> fresh(r.sinst) && r.sinst.addr == addr && r.sinst.size == size && r.sinst.next == null
      ensures r.Found? ==> Fetch(icache, addr, size) == Some(r.sinst.data)
    {
      hide PageOf, Fetch, Glued;
      var data: seq<Byte> := [];
      var baseAddr: nat := PageOf(addr);
      var left: nat := size;
      PageOfPage(addr);
      GluedNothing(Fetch(icache, addr, size));
      while left > 0
        invariant PageOf(baseAddr) == baseAddr && left <= size
        invariant data == [] ==> baseAddr == PageOf(addr) && left == size
        invariant Fetch(icache, addr, size) == Glued(data, Fetch(icache, if data == [] then addr else baseAddr, left))
      {
        PageOfPage(baseAddr);
        ghost var here := if data == [] then addr else baseAddr;
        var offset := if data == [] then addr - baseAddr else 0;
        var n := Min(left, PAGE - offset);
        FetchPage(icache, here, baseAddr, left, data);
        if baseAddr !in icache {
          return Refuse;
        }
        data := data + icache[baseAddr][offset..offset + n];
        left := left - n;
        baseAddr := baseAddr + PAGE;
      }
      FetchPage(icache, if data == [] then addr else baseAddr, baseAddr, 0, data);
      var sinst := new StaticInstruction(addr, size, data);
      r := Found(sinst);
    }

    /** The static instruction at an address: the probable next one, the cached one, or a new one. */
    method GetStaticInstruction(addr: nat, size: nat) returns (r: Lookup)
      requires CacheOk()
      modifies `scache, `lastSinst, scache.Values`next
      ensures CacheOk()
      ensures addr in old(scache) ==> scache == old(scache)
      ensures addr in old(scache) ==>
        if r.Found? then r.sinst == scache[addr] else scache[addr].size != size
      ensures addr !in old(scache) && Fetch(icache, addr, size).None? ==> r.Refuse? && scache == old(scache)
      ensures addr !in old(scache) && Fetch(icache, addr, size).Some? ==>
        && r.Found? && fresh(r.sinst) && scache == old(scache)[addr := r.sinst]
        && r.sinst.size == size && r.sinst.data == Fetch(icache, addr, size).value
      ensures r.Found? ==> lastSinst == r.sinst && r.sinst.addr == addr
    {
      hide Fetch;
      var sinst: StaticInstruction;
      if lastSinst != null && lastSinst.next != null && lastSinst.next.addr == addr {
        sinst := lastSinst.next;
      } else if addr in scache {
        sinst := scache[addr];
        if sinst.size != size {
          return Refuse;
        }
      } else {
        r := DecodeInstruction(addr, size);
        if r.Refuse? {
          return;
        }
        sinst := r.sinst;
        scache := scache[addr := sinst];
      }
      if lastSinst != null && lastSinst.next == null {
        lastSinst.next := sinst;
      }
      lastSinst := sinst;
      r := Found(sinst);
    }

    /** Copies code that came instruction by instruction into its pages. */
    method PatchPages(address: nat, bytes: seq<Byte>)
      modifies `icache
      ensures icache == Patch(old(icache), leftover, address, bytes)
    {
      hide PageOf, Patched;
      var a: nat, left := address, bytes;
      while left != []
        invariant Patch(icache, leftover, a, left) == Patch(old(icache), leftover, address, bytes)
        decreases |left|
      {
        var baseAddr := PageOf(a);
        var offset := a - baseAddr;
        var n := Min(|left|, PAGE - offset);
        icache := icache[baseAddr := Patched(icache, leftover, baseAddr, offset, left[..n])];
        left := left[n..];
        a := baseAddr + PAGE;
      }
    }

    /** Takes in a record that is not an instruction. */
    method TakeOther(kind: Byte, payload: seq<Byte>) returns (ok: bool)
      requires !seenEnd
      modifies `icache, `vcache, `handled, `seenEnd
      ensures var step := Step(old(State()), leftover, Other(kind, payload));
        if step.Refused? then !ok && handled == old(handled) else
        && ok && State() == step.reader && seenEnd == (step.events == [Ended])
        && handled == old(handled) + if seenEnd then [] else step.events
    {
      hide Patch, SizeOk;
      ok := true;
      if kind == END {
        ok := payload == [];
        seenEnd := ok;
      } else if kind == ICACHE {
        ok := |payload| == 8 + PAGE;
        if ok {
          icache := icache[Value(payload[..8]) := payload[8..]];
        }
      } else if kind == ICACHE_VARIABLE {
        ok := |payload| >= 8;
        if ok {
          PatchPages(Value(payload[..8]), payload[8..]);
        }
      } else if kind == LOGICAL2PHYSICAL {
        ok := |payload| == 16;
        if ok {
          vcache := vcache[Value(payload[..8]) := Value(payload[8..])];
        }
      } else if Reported(kind) {
        ok := SizeOk(kind, |payload|);
        if ok {
          handled := handled + [Handled(kind, payload)];
        }
      }
    }

    /** Takes in an instruction. Where the cached instruction has another size, the probable-next link may still
        find it; nothing else is found that the format refuses. */
    method TakeInstruction(i: Instr) returns (r: Lookup)
      requires CacheOk()
      modifies `lastAddress, `scache, `lastSinst, scache.Values`next
      ensures CacheOk()
      ensures var run := Instruction(old(State()), i);
        if run.Refused? then r.Found? ==> i.addr in scache && r.sinst == scache[i.addr] && r.sinst.size != i.size
        else
          && r.Found? && State() == run.reader && run.events == [Executed(i, r.sinst.data)]
          && (i.addr, r.sinst) in scache.Items
      ensures fresh(scache.Values - old(scache.Values))
    {
      hide Fetch;
      lastAddress := (i.addr + i.size) % WORD;
      r := GetStaticInstruction(i.addr, i.size);
    }

    method Finish(i: Instr) returns (r: ReadResult)
      requires CacheOk()
      modifies `lastAddress, `scache, `lastSinst, scache.Values`next
      ensures CacheOk()
      ensures var run := Instruction(old(State()), i);
        if run.Refused? then (r.Failed? || (r.Decoded? && r.sinst.size != i.size && r.instr == i)) else
        && r.Decoded? && r.instr == i && State() == run.reader && run.events == [Executed(i, r.sinst.data)]
        && (i.addr, r.sinst) in scache.Items
      ensures fresh(scache.Values - old(scache.Values))
    {
      var found := TakeInstruction(i);
      r := if found.Found? then Decoded(i, found.sinst) else Failed;
    }

    /** Takes in records up to the next instruction, or to the end of the trace. */
    method ReadOthers() returns (ok: bool, ghost done: seq<Event>)
      requires !seenEnd
      modifies `input, `icache, `vcache, `handled, `seenEnd
      ensures handled == old(handled) + done && |input| <= |old(input)|
      ensures !ok ==> ReadNext(old(State()), leftover, old(input)) == Stuck
      ensures ok && seenEnd ==> ReadNext(old(State()), leftover, old(input)) == Got(State(), input, done + [Ended])
      ensures ok && !seenEnd ==>
        && After(done, ReadNext(State(), leftover, input)) == ReadNext(old(State()), leftover, old(input))
        && Decode(input).Parsed? && !Decode(input).record.Other?
      ensures InstructionsTaken(old(State()), leftover, old(input)) && ok && !seenEnd ==>
        InstructionsTaken(State(), leftover, input)
    {
      hide Step, Decode, Instruction, ReadNext, InstructionsTaken;
      done := [];
      AfterNothing(ReadNext(State(), leftover, input));
      while true
        invariant !seenEnd && handled == old(handled) + done && |input| <= |old(input)|
        invariant After(done, ReadNext(State(), leftover, input)) == ReadNext(old(State()), leftover, old(input))
        invariant InstructionsTaken(old(State()), leftover, old(input)) ==> InstructionsTaken(State(), leftover, input)
        decreases |input|
      {
        DecodeShrinks(input);
        var parsed := Decode(input);
        NextStep(State(), leftover, input, done);
        NextTaken(State(), leftover, input);
        if parsed.Truncated? {
          return false, done;
        }
        if !parsed.record.Other? {
          return true, done;
        }
        ghost var step := Step(State(), leftover, parsed.record);
        StepKinds(State(), leftover, parsed.record);
        input := parsed.rest;
        ok := TakeOther(parsed.record.kind, parsed.record.payload);
        if !ok || seenEnd {
          return;
        }
        done := done + step.events;
      }
    }

    /** One call of Read: up to the next instruction, or to the end of the trace. */
    method Read() returns (r: ReadResult)
      requires CacheOk() && !seenEnd
      modifies this, scache.Values`next
      ensures CacheOk()
      ensures ReadAs(r, ReadNext(old(State()), leftover, old(input)), old(handled))
      ensures r.Decoded? ==> |input| < |old(input)| && !seenEnd
      ensures InstructionsTaken(old(State()), leftover, old(input)) ==>
        && (r.Failed? <==> ReadNext(old(State()), leftover, old(input)).Stuck?)
        && (r.Decoded? ==> InstructionsTaken(State(), leftover, input))
      ensures fresh(scache.Values - old(scache.Values))
    {
      hide Step, Decode, Instruction, ReadNext, InstructionsTaken;
      var ok, done := ReadOthers();
      if !ok {
        return Failed;
      }
      if seenEnd {
        return NoMore;
      }
      ghost var r0 := State();
      NextStep(r0, leftover, input, done);
      NextTaken(r0, leftover, input);
      var parsed := Decode(input);
      StepKinds(r0, leftover, parsed.record);
      DecodeShrinks(input);
      input := parsed.rest;
      var rec := parsed.record;
      if rec.Simple? {
        r := Finish(Instr(lastAddress, rec.size, rec.addresses, rec.branch, rec.taken, false, true));
      } else {
        r := Finish(Instr(rec.addr, rec.size, rec.addresses, rec.branch, rec.taken, rec.isPredicate, rec.executed));
      }
    }

    /** `va2pa`: the physical address of a virtual one. */
    method Va2pa(va: nat) returns (pa: nat)
      ensures pa == Translate(State(), physical, va)
      ensures if !physical then pa == va else
              if va / PAGE !in vcache then pa == 0 else
              pa < WORD && pa % PAGE == va % PAGE && pa / PAGE == vcache[va / PAGE] % FRAMES
    {
      if va / PAGE in vcache {
        TranslatedPage(State(), va);
      }
      if physical {
        var vp := va / PAGE;
        if vp !in vcache {
          pa := 0;
        } else {
          pa := (vcache[vp] * PAGE) % WORD + va % PAGE;
        }
      } else {
        pa := va;
      }
    }

    /** The reader has done what the format says: its state, the rest of its input, what it reported and what it
        returned. Where the format refuses the trace, it has failed or taken a cached instruction of another size. */
    ghost predicate ReadAs(r: ReadResult, next: Reading, before: seq<Event>)
      reads this
    {
      match next
      case Stuck => r.Failed? || (r.Decoded? && r.sinst.size != r.instr.size)
      case Got(reader, rest, events) =>
        && State() == reader && input == rest
        && |before| <= |handled| && handled[..|before|] == before
        && (r.NoMore? || r.Decoded?)
        && (r.NoMore? ==> seenEnd && events == handled[|before|..] + [Ended])
        && (r.Decoded? ==> !seenEnd && events == handled[|before|..] + [Executed(r.instr, r.sinst.data)]
                           && (r.instr.addr, r.sinst) in scache.Items)
    }
  }

  ghost predicate Cached(scache: map<nat, StaticInstruction>, s: StaticInstruction?) {
    s != null ==> s.addr in scache && scache[s.addr] == s
  }

  ghost function Glued(data: seq<Byte>, others: Option<seq<Byte>>): Option<seq<Byte>> {
    if others.None? then None else Some(data + others.value)
  }

  lemma GluedNothing(r: Option<seq<Byte>>)
    ensures Glued([], r) == r
  {
    assert r.Some? ==> [] + r.value == r.value;
  }

  /** The bytes of one page come first. */
  lemma FetchPage(pages: map<nat, Page>, a: nat, base: nat, size: nat, data: seq<Byte>)
    requires base == PageOf(a)
    ensures size == 0 ==> Glued(data, Fetch(pages, a, size)) == Some(data)
    ensures size > 0 && base !in pages ==> Glued(data, Fetch(pages, a, size)) == None
    ensures size > 0 && base in pages ==>
      var n := Min(size, PAGE - (a - base));
      Glued(data, Fetch(pages, a, size))
        == Glued(data + pages[base][a - base..a - base + n], Fetch(pages, base + PAGE, size - n))
  {
    hide PageOf;
    if size > 0 && base in pages {
      var n := Min(size, PAGE - (a - base));
      var chunk := pages[base][a - base..a - base + n];
      var others := Fetch(pages, base + PAGE, size - n);
      assert others.Some? ==> (data + chunk) + others.value == data + (chunk + others.value);
    }
    assert data + [] == data;
  }

  ghost function After(done: seq<Event>, n: Reading): Reading {
    if n.Stuck? then Stuck else Got(n.reader, n.rest, done + n.events)
  }

  lemma AfterNothing(n: Reading)
    ensures After([], n) == n
  {
    assert n.Got? ==> [] + n.events == n.events;
  }

  lemma StepKinds(r: Trace.Reader, leftover: nat -> Page, rec: Record)
    ensures var step := Step(r, leftover, rec);
      match rec
      case Simple(size, branch, taken, addresses) =>
        step == Instruction(r, Instr(r.last, size, addresses, branch, taken, false, true))
      case Extended(size, branch, taken, isPredicate, executed, addr, addresses) =>
        step == Instruction(r, Instr(addr, size, addresses, branch, taken, isPredicate, executed))
      case Other(_, _) =>
        step.Run? ==> (Returns(step.events) <==> step.events == [Ended])
  {
    hide Instruction;
  }

  lemma NextTaken(r: Trace.Reader, leftover: nat -> Page, s: seq<Byte>)
    ensures var parsed := Decode(s);
      parsed.Parsed? && InstructionsTaken(r, leftover, s) ==>
        var step := Step(r, leftover, parsed.record);
        if step.Refused? then parsed.record.Other?
        else step.events == [Ended] || InstructionsTaken(step.reader, leftover, parsed.rest)
  {
    hide Decode;
    var parsed := Decode(s);
    if parsed.Parsed? && Step(r, leftover, parsed.record).Run? {
      StepEvents(r, leftover, parsed.record);
    }
  }

  lemma NextStep(r: Trace.Reader, leftover: nat -> Page, s: seq<Byte>, done: seq<Event>)
    ensures var parsed := Decode(s);
      parsed.Parsed? ==>
        var step := Step(r, leftover, parsed.record);
        var next := After(done, ReadNext(r, leftover, s));
        if step.Refused? then next == Stuck
        else if Returns(step.events) then next == Got(step.reader, parsed.rest, done + step.events)
        else next == After(done + step.events, ReadNext(step.reader, leftover, parsed.rest))
    ensures Decode(s).Truncated? ==> ReadNext(r, leftover, s) == Stuck
  {
    hide Step, Decode;
    var parsed := Decode(s);
    if parsed.Parsed? {
      DecodeShrinks(s);
      var step := Step(r, leftover, parsed.record);
      if step.Run? && !Returns(step.events) {
        var others := ReadNext(step.reader, leftover, parsed.rest);
        assert others.Got? ==> done + (step.events + others.events) == (done + step.events) + others.events;
      }
    }
  }
}
