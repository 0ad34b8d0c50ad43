/** What the trace writer writes for a call, what the trace reader makes of a record, and that the second undoes
    the first: every instruction comes back with the bytes of its code. */
module SiftTrace {
  import opened Helpers
  import opened SiftFormat

  const PAGE: nat := 4096

  // Record kinds the trace itself needs; the other kinds are reported to handlers or skipped.
  const ICACHE: Byte := 0
  const OUTPUT: Byte := 1
  const SYSCALL_REQUEST: Byte := 2
  const NEW_THREAD: Byte := 4
  const JOIN: Byte := 8
  const ICACHE_VARIABLE: Byte := 11
  const SYNC: Byte := 12
  const LOGICAL2PHYSICAL: Byte := 14
  const MAGIC: Byte := 15
  const ROUTINE_CHANGE: Byte := 17
  const EMU: Byte := 19
  const FORK: Byte := 21
  const INSTRUCTION_COUNT: Byte := 23
  const CACHE_ONLY: Byte := 24
  const END: Byte := 255

  /** The records whose contents the reader hands to a handler. */
  predicate Reported(kind: Byte) {
    kind == OUTPUT || kind == SYSCALL_REQUEST || kind == NEW_THREAD || kind == JOIN || kind == SYNC || kind == MAGIC
    || kind == ROUTINE_CHANGE || kind == EMU || kind == FORK || kind == INSTRUCTION_COUNT || kind == CACHE_ONLY
  }

  /** The payload lengths the writer sends; a system call or an output may come without data. */
  predicate SizeWritten(kind: Byte, size: nat) {
    SizeOk(kind, size) || (kind == OUTPUT && size == 1) || (kind == SYSCALL_REQUEST && size == 2)
  }

  /** The payload lengths the reader accepts for a reported record. */
  predicate SizeOk(kind: Byte, size: nat) {
    if kind == OUTPUT then size > 1
    else if kind == SYSCALL_REQUEST then size > 2
    else if kind == JOIN || kind == INSTRUCTION_COUNT then size == 4
    else if kind == MAGIC then size == 24
    else if kind == ROUTINE_CHANGE then size == 25
    else if kind == EMU then 2 <= size <= 10
    else if kind == CACHE_ONLY then size == 18
    else size == 0
  }

  // ---------- code memory ----------

  type Code = nat -> Byte

  type Page = p: seq<Byte> | |p| == PAGE witness seq(PAGE, i => 0)

  function PageOf(a: nat): (p: nat)
    ensures p <= a < p + PAGE
  {
    a - a % PAGE
  }

  function CodeAt(code: Code, a: nat, n: nat): (s: seq<Byte>)
    ensures |s| == n
    ensures forall i | 0 <= i < n :: s[i] == code(a + i)
  {
    seq(n, i requires 0 <= i < n => code(a + i))
  }

  // ---------- the writer ----------

  datatype Instr = Instr(addr: nat, size: nat, addresses: seq<nat>, branch: bool, taken: bool, isPredicate: bool,
      executed: bool)

  /** A virtual address, and what the page table says of its page when the writer asks; 0 if it is not mapped. */
  datatype Touch = Touch(va: nat, pp: nat)

  /** What the writer is told: entries are the page table entries for the addresses of an instruction, touches the
      addresses whose pages it looks up before a system call or a cache-only record. */
  datatype Call =
    | Execute(instr: Instr, entries: seq<nat>)
    | Report(kind: Byte, payload: seq<Byte>, touches: seq<Touch>)

  /** Whether code is sent by instruction instead of by page, and whether the trace has physical addresses. */
  datatype Mode = Mode(perInsn: bool, physical: bool)

  /** last is the address after the last instruction; icache the pages, or the instructions, whose code was sent;
      va2pa the page mappings that were sent. */
  datatype Writer = Writer(last: nat, icache: set<nat>, va2pa: map<nat, nat>)

  function PageRecord(code: Code, base: nat): Record {
    Other(ICACHE, Bytes(8, base) + CodeAt(code, base, PAGE))
  }

  /** The pages from base up to last that were not sent yet. */
  function PageRecords(icache: set<nat>, code: Code, base: nat, last: nat): seq<Record>
    decreases last + PAGE - base
  {
    if base > last then []
    else (if base in icache then [] else [PageRecord(code, base)]) + PageRecords(icache, code, base + PAGE, last)
  }

  function PageSet(base: nat, last: nat): set<nat>
    decreases last + PAGE - base
  {
    if base > last then {} else {base} + PageSet(base + PAGE, last)
  }

  function CodeRecords(w: Writer, code: Code, perInsn: bool, i: Instr): seq<Record>
    requires i.size > 0
  {
    if perInsn then
      if i.addr in w.icache then [] else [Other(ICACHE_VARIABLE, Bytes(8, i.addr) + CodeAt(code, i.addr, i.size))]
    else
      PageRecords(w.icache, code, PageOf(i.addr), PageOf(i.addr + i.size - 1))
  }

  function InstrRecord(w: Writer, i: Instr): Record {
    if i.addr == w.last && !i.isPredicate then
      Simple(i.size, i.branch, i.taken, i.addresses)
    else
      Extended(i.size, i.branch, i.taken, i.isPredicate, i.executed, i.addr, i.addresses)
  }

  function CodeSent(w: Writer, perInsn: bool, i: Instr): set<nat>
    requires i.size > 0
  {
    w.icache + if perInsn then {i.addr} else PageSet(PageOf(i.addr), PageOf(i.addr + i.size - 1))
  }

  function InstrTouches(i: Instr, entries: seq<nat>): seq<Touch>
    requires |entries| == 1 + |i.addresses|
  {
    seq(|entries|, k requires 0 <= k < |entries| => Touch(if k == 0 then i.addr else i.addresses[k - 1], entries[k]))
  }

  /** The addresses whose pages the writer offers to the reader. */
  function Offered(mode: Mode, c: Call): seq<Touch>
    requires c.Execute? ==> |c.entries| == 1 + |c.instr.addresses|
  {
    if !mode.physical then [] else
    match c
    case Execute(i, entries) => InstrTouches(i, entries)
    case Report(_, _, touches) => touches
  }

  function MapRecord(vp: nat, pp: nat): Record {
    Other(LOGICAL2PHYSICAL, Bytes(8, vp) + Bytes(8, pp))
  }

  /** A page is sent when it is mapped and was not sent before. */
  predicate Fresh(va2pa: map<nat, nat>, t: Touch) {
    t.va / PAGE !in va2pa && t.pp != 0
  }

  function MapRecords(va2pa: map<nat, nat>, touches: seq<Touch>): seq<Record>
    decreases |touches|
  {
    if touches == [] then [] else
    var t := touches[0];
    if Fresh(va2pa, t) then [MapRecord(t.va / PAGE, t.pp)] + MapRecords(va2pa[t.va / PAGE := t.pp], touches[1..])
    else MapRecords(va2pa, touches[1..])
  }

  function Mapped(va2pa: map<nat, nat>, touches: seq<Touch>): map<nat, nat>
    decreases |touches|
  {
    if touches == [] then va2pa else
    var t := touches[0];
    Mapped(if Fresh(va2pa, t) then va2pa[t.va / PAGE := t.pp] else va2pa, touches[1..])
  }

  ghost predicate Complete(c: Call) {
    c.Execute? ==> c.instr.size > 0 && |c.entries| == 1 + |c.instr.addresses|
  }

  function CallRecords(w: Writer, code: Code, mode: Mode, c: Call): seq<Record>
    requires Complete(c)
  {
    match c
    case Execute(i, _) =>
      CodeRecords(w, code, mode.perInsn, i) + MapRecords(w.va2pa, Offered(mode, c)) + [InstrRecord(w, i)]
    case Report(kind, payload, _) => MapRecords(w.va2pa, Offered(mode, c)) + [Other(kind, payload)]
  }

  function CallNext(w: Writer, mode: Mode, c: Call): Writer
    requires Complete(c)
  {
    var va2pa := Mapped(w.va2pa, Offered(mode, c));
    match c
    case Execute(i, _) => Writer(i.addr + i.size, CodeSent(w, mode.perInsn, i), va2pa)
    case Report(_, _, _) => w.(va2pa := va2pa)
  }

  // ---------- the reader ----------

  datatype Static = Static(size: nat, data: seq<Byte>)

  datatype Reader = Reader(last: nat, pages: map<nat, Page>, statics: map<nat, Static>, vcache: map<nat, nat>)

  datatype Event =
    | Executed(instr: Instr, data: seq<Byte>)
    | Handled(kind: Byte, payload: seq<Byte>)
    | Ended

  /** A record is refused (an assertion of the reader fails) or taken in, possibly yielding an event. */
  datatype Run = Refused | Run(reader: Reader, events: seq<Event>)

  /** The page at base after its bytes from `off` on were overwritten; a new page starts out with leftover contents. */
  function Patched(pages: map<nat, Page>, leftover: nat -> Page, base: nat, off: nat, bytes: seq<Byte>): Page
    requires off + |bytes| <= PAGE
  {
    var page := if base in pages then pages[base] else leftover(base);
    page[..off] + bytes + page[off + |bytes|..]
  }

  function Patch(pages: map<nat, Page>, leftover: nat -> Page, a: nat, bytes: seq<Byte>): map<nat, Page>
    decreases |bytes|
  {
    if bytes == [] then pages else
    var base := PageOf(a);
    var n := Min(|bytes|, PAGE - (a - base));
    Patch(pages[base := Patched(pages, leftover, base, a - base, bytes[..n])], leftover, base + PAGE, bytes[n..])
  }

  /** The bytes at a, gathered page by page; None when a page is missing. */
  function Fetch(pages: map<nat, Page>, a: nat, size: nat): (r: Option<seq<Byte>>)
    ensures r.Some? ==> |r.value| == size
    decreases size
  {
    if size == 0 then Some([]) else
    var base := PageOf(a);
    var n := Min(size, PAGE - (a - base));
    if base !in pages then None else
    var rest := Fetch(pages, base + PAGE, size - n);
    if rest.None? then None else Some(pages[base][a - base..a - base + n] + rest.value)
  }

  function Instruction(r: Reader, i: Instr): Run {
    var r1 := r.(last := (i.addr + i.size) % WORD);
    if i.addr in r.statics then
      if r.statics[i.addr].size == i.size then Run(r1, [Executed(i, r.statics[i.addr].data)]) else Refused
    else
      var data := Fetch(r.pages, i.addr, i.size);
      if data.None? then Refused
      else Run(r1.(statics := r.statics[i.addr := Static(i.size, data.value)]), [Executed(i, data.value)])
  }

  function Step(r: Reader, leftover: nat -> Page, rec: Record): Run {
    match rec
    case Simple(size, branch, taken, addresses) =>
      Instruction(r, Instr(r.last, size, addresses, branch, taken, false, true))
    case Extended(size, branch, taken, isPredicate, executed, addr, addresses) =>
      Instruction(r, Instr(addr, size, addresses, branch, taken, isPredicate, executed))
    case Other(kind, payload) =>
      if kind == END then
        if payload == [] then Run(r, [Ended]) else Refused
      else if kind == ICACHE then
        if |payload| != 8 + PAGE then Refused
        else Run(r.(pages := r.pages[Value(payload[..8]) := payload[8..]]), [])
      else if kind == ICACHE_VARIABLE then
        if |payload| < 8 then Refused
        else Run(r.(pages := Patch(r.pages, leftover, Value(payload[..8]), payload[8..])), [])
      else if kind == LOGICAL2PHYSICAL then
        if |payload| != 16 then Refused
        else Run(r.(vcache := r.vcache[Value(payload[..8]) := Value(payload[8..])]), [])
      else if Reported(kind) then
        if SizeOk(kind, |payload|) then Run(r, [Handled(kind, payload)]) else Refused
      else Run(r, [])
  }

  /** Which records the reader refuses, by their numbers: those whose payload has not the length that belongs to the
      kind; every other kind is taken or skipped. */
  lemma RecordsRefused(r: Reader, leftover: nat -> Page, kind: Byte, payload: seq<Byte>)
    ensures var n := |payload|;
      Step(r, leftover, Other(kind, payload)).Refused? <==>
        || (kind == 0 && n != 8 + 4096) || (kind == 11 && n < 8) || (kind == 14 && n != 16)
        || (kind == 1 && n <= 1) || (kind == 2 && n <= 2) || (kind in {8, 23} && n != 4)
        || (kind == 15 && n != 24) || (kind == 17 && n != 25) || (kind == 19 && !(2 <= n <= 10))
        || (kind == 24 && n != 18) || (kind in {4, 12, 21, 255} && n != 0)
    ensures var n, run := |payload|, Step(r, leftover, Other(kind, payload));
      run.Run? ==>
        if kind in {1, 2, 4, 8, 12, 15, 17, 19, 21, 23, 24} then run == Run(r, [Handled(kind, payload)])
        else if kind == 255 then run == Run(r, [Ended])
        else run.events == [] && (kind !in {0, 11, 14} ==> run.reader == r)
  {
  }

  function Consume(r: Reader, leftover: nat -> Page, recs: seq<Record>): Run
    decreases |recs|
  {
    if recs == [] then Run(r, []) else
    var first := Step(r, leftover, recs[0]);
    if first.Refused? then Refused else
    var others := Consume(first.reader, leftover, recs[1..]);
    if others.Refused? then Refused else Run(others.reader, first.events + others.events)
  }

  lemma {:induction false} ConsumeConcat(r: Reader, leftover: nat -> Page, a: seq<Record>, b: seq<Record>)
    requires Consume(r, leftover, a).Run?
    ensures var ra := Consume(r, leftover, a);
      var rb := Consume(ra.reader, leftover, b);
      Consume(r, leftover, a + b) == if rb.Refused? then Refused else Run(rb.reader, ra.events + rb.events)
    decreases |a|
  {
    hide Step;
    if a == [] {
      assert a + b == b;
    } else {
      var first := Step(r, leftover, a[0]);
      ConsumeConcat(first.reader, leftover, a[1..], b);
      assert (a + b)[1..] == a[1..] + b;
    }
  }

  // ---------- code pages ----------

  /** The reader has the byte of code at b. */
  ghost predicate Known(pages: map<nat, Page>, code: Code, b: nat) {
    PageOf(b) in pages && pages[PageOf(b)][b - PageOf(b)] == code(b)
  }

  ghost predicate Covered(pages: map<nat, Page>, code: Code, a: nat, n: nat) {
    forall b: nat {:trigger Known(pages, code, b)} | a <= b < a + n :: Known(pages, code, b)
  }

  /** Nothing that was known has been lost. */
  ghost predicate Grows(pages: map<nat, Page>, pages': map<nat, Page>, code: Code) {
    forall b: nat {:trigger Known(pages', code, b)} | Known(pages, code, b) :: Known(pages', code, b)
  }

  lemma PageOfWithin(base: nat, b: nat)
    requires PageOf(base) == base && base <= b < base + PAGE
    ensures PageOf(b) == base
  {
    assert base % PAGE == 0;
    assert b == base + (b - base);
    assert b % PAGE == b - base;
  }

  lemma PageOfPage(a: nat)
    ensures PageOf(PageOf(a)) == PageOf(a)
    ensures PageOf(PageOf(a) + PAGE) == PageOf(a) + PAGE
  {
    assert a - a % PAGE == a / PAGE * PAGE;
    assert (a / PAGE * PAGE) % PAGE == 0;
    assert (a / PAGE * PAGE + PAGE) % PAGE == 0;
  }

  /** Overwriting part of a page with code. */
  lemma PatchedKnows(pages: map<nat, Page>, leftover: nat -> Page, code: Code, base: nat, off: nat, bytes: seq<Byte>)
    requires PageOf(base) == base && off + |bytes| <= PAGE
    requires bytes == CodeAt(code, base + off, |bytes|)
    ensures var pages' := pages[base := Patched(pages, leftover, base, off, bytes)];
      Grows(pages, pages', code) && Covered(pages', code, base + off, |bytes|)
  {
    hide PageOf;
    var pages' := pages[base := Patched(pages, leftover, base, off, bytes)];
    forall b: nat | Known(pages, code, b) ensures Known(pages', code, b) {
    }
    forall b: nat | base + off <= b < base + off + |bytes| ensures Known(pages', code, b) {
      PageOfWithin(base, b);
    }
  }

  lemma GrowsTrans(p0: map<nat, Page>, p1: map<nat, Page>, p2: map<nat, Page>, code: Code)
    requires Grows(p0, p1, code) && Grows(p1, p2, code)
    ensures Grows(p0, p2, code)
  {
  }

  lemma CoveredGrows(p0: map<nat, Page>, p1: map<nat, Page>, code: Code, a: nat, n: nat)
    requires Covered(p0, code, a, n) && Grows(p0, p1, code)
    ensures Covered(p1, code, a, n)
  {
  }

  lemma CoveredConcat(pages: map<nat, Page>, code: Code, a: nat, m: nat, n: nat)
    requires Covered(pages, code, a, m) && Covered(pages, code, a + m, n)
    ensures Covered(pages, code, a, m + n)
  {
    hide Known;
    forall b: nat | a <= b < a + (m + n) ensures Known(pages, code, b) {
      assert b < a + m || a + m <= b < a + m + n;
    }
  }

  /** Code sent instruction by instruction: it may run over the end of a page. */
  lemma {:induction false} PatchKnows(pages: map<nat, Page>, leftover: nat -> Page, code: Code, a: nat,
                                      bytes: seq<Byte>)
    requires bytes == CodeAt(code, a, |bytes|)
    ensures Grows(pages, Patch(pages, leftover, a, bytes), code)
    ensures Covered(Patch(pages, leftover, a, bytes), code, a, |bytes|)
    decreases |bytes|
  {
    hide PageOf, Known, Patched;
    if bytes != [] {
      var base := PageOf(a);
      var n := Min(|bytes|, PAGE - (a - base));
      var pages1 := pages[base := Patched(pages, leftover, base, a - base, bytes[..n])];
      var pages2 := Patch(pages1, leftover, base + PAGE, bytes[n..]);
      PageOfPage(a);
      assert bytes[..n] == CodeAt(code, a, n);
      PatchedKnows(pages, leftover, code, base, a - base, bytes[..n]);
      assert n < |bytes| ==> a + n == base + PAGE;
      assert bytes[n..] == CodeAt(code, base + PAGE, |bytes| - n);
      PatchKnows(pages1, leftover, code, base + PAGE, bytes[n..]);
      GrowsTrans(pages, pages1, pages2, code);
      CoveredGrows(pages1, pages2, code, a, n);
      if n < |bytes| {
        CoveredConcat(pages2, code, a, n, |bytes| - n);
      }
    }
  }

  /** Where code is covered, fetching gives exactly that code. */
  lemma {:induction false} FetchGivesCode(pages: map<nat, Page>, code: Code, a: nat, size: nat)
    requires Covered(pages, code, a, size)
    ensures Fetch(pages, a, size) == Some(CodeAt(code, a, size))
    decreases size
  {
    hide PageOf, Known;
    if size > 0 {
      var base := PageOf(a);
      var n := Min(size, PAGE - (a - base));
      PageOfPage(a);
      assert n < size ==> a + n == base + PAGE;
      assert Covered(pages, code, base + PAGE, size - n);
      FetchGivesCode(pages, code, base + PAGE, size - n);
      assert Known(pages, code, a);
      ChunkIsCode(pages, code, base, a, n);
      assert CodeAt(code, a, size) == pages[base][a - base..a - base + n] + CodeAt(code, base + PAGE, size - n);
    }
  }

  /** Every page that an instruction touches is there. */
  ghost predicate PagesThere(pages: map<nat, Page>, a: nat, size: nat) {
    forall b: nat | a <= b < a + size :: PageOf(b) in pages
  }

  lemma {:induction false} FetchedIff(pages: map<nat, Page>, a: nat, size: nat)
    ensures Fetch(pages, a, size).Some? <==> PagesThere(pages, a, size)
    decreases size
  {
    hide PageOf;
    if size > 0 {
      var base := PageOf(a);
      var n := Min(size, PAGE - (a - base));
      PageOfPage(a);
      FetchedIff(pages, base + PAGE, size - n);
      forall b: nat | a <= b < a + n ensures PageOf(b) == base {
        PageOfWithin(base, b);
      }
      assert PageOf(a) == base && a < a + n;
      assert n < size ==> a + n == base + PAGE;
    }
  }

  /** Which instructions the reader refuses: one that was there before with another length, and a new one of which a
      page is missing. */
  lemma InstructionsRefused(r: Reader, i: Instr)
    ensures Instruction(r, i).Refused? <==>
      if i.addr in r.statics then r.statics[i.addr].size != i.size else !PagesThere(r.pages, i.addr, i.size)
  {
    hide Fetch, PagesThere;
    FetchedIff(r.pages, i.addr, i.size);
  }

  lemma ChunkIsCode(pages: map<nat, Page>, code: Code, base: nat, a: nat, n: nat)
    requires PageOf(base) == base && base <= a && 0 < n && a + n <= base + PAGE && Covered(pages, code, a, n)
    ensures base in pages && pages[base][a - base..a - base + n] == CodeAt(code, a, n)
  {
    hide PageOf;
    PageOfWithin(base, a);
    assert Known(pages, code, a);
    var chunk := pages[base][a - base..a - base + n];
    forall i | 0 <= i < n ensures chunk[i] == CodeAt(code, a, n)[i] {
      PageOfWithin(base, a + i);
      assert Known(pages, code, a + i);
    }
  }

  // ---------- reader and writer in step ----------

  /** How much code the writer sends at a: the instruction, or the whole page. */
  function Sent(perInsn: bool, length: nat -> nat, a: nat): nat {
    if perInsn then length(a) else PAGE
  }

  ghost predicate StaticsOk(r: Reader, code: Code, length: nat -> nat) {
    forall a | a in r.statics :: r.statics[a] == Static(length(a), CodeAt(code, a, length(a)))
  }

  /** What holds between writer and reader once the reader has taken in all the writer wrote. */
  ghost predicate InStep(w: Writer, r: Reader, code: Code, length: nat -> nat, mode: Mode) {
    && r.last == w.last && r.vcache == w.va2pa
    && (forall a | a in w.icache :: Covered(r.pages, code, a, Sent(mode.perInsn, length, a)))
    && StaticsOk(r, code, length)
  }

  /** An instruction at an address always has the same length, and its code ends before the last page. */
  predicate InstrOk(i: Instr, length: nat -> nat) {
    && 0 < i.size < 16 && i.size == length(i.addr)
    && |i.addresses| <= 2 && AllWords(i.addresses) && i.addr + i.size <= WORD - PAGE
  }

  predicate TouchesOk(touches: seq<Touch>) {
    forall k | 0 <= k < |touches| :: touches[k].va < WORD && touches[k].pp < WORD
  }

  predicate CallOk(c: Call, length: nat -> nat) {
    match c
    case Execute(i, entries) => InstrOk(i, length) && |entries| == 1 + |i.addresses| && AllWords(entries)
    case Report(kind, payload, touches) =>
      && Reported(kind) && SizeWritten(kind, |payload|) && |payload| < 0x1_0000_0000
      && TouchesOk(touches) && (touches != [] ==> kind == SYSCALL_REQUEST || kind == CACHE_ONLY)
  }

  /** The reader insists on data bytes in a system call and in an output. */
  predicate Taken(c: Call) {
    c.Report? ==> !(c.kind == SYSCALL_REQUEST && |c.payload| == 2) && !(c.kind == OUTPUT && |c.payload| == 1)
  }

  /** An instruction as it comes back: a simple record does not say whether it was executed. */
  function AsRead(w: Writer, i: Instr): Instr {
    if i.addr == w.last && !i.isPredicate then i.(executed := true) else i
  }

  function Expected(w: Writer, code: Code, c: Call): seq<Event> {
    match c
    case Execute(i, _) => [Executed(AsRead(w, i), CodeAt(code, i.addr, i.size))]
    case Report(kind, payload, _) => [Handled(kind, payload)]
  }

  lemma {:induction false} PagesConsumed(r: Reader, leftover: nat -> Page, icache: set<nat>, code: Code, base: nat,
                                         last: nat)
    returns (pages': map<nat, Page>)
    requires PageOf(base) == base && last < WORD
    requires forall a | a in icache :: Covered(r.pages, code, a, PAGE)
    ensures Consume(r, leftover, PageRecords(icache, code, base, last)) == Run(r.(pages := pages'), [])
    ensures Grows(r.pages, pages', code)
    ensures forall a | a in PageSet(base, last) :: Covered(pages', code, a, PAGE)
    decreases last + PAGE - base
  {
    hide PageOf, Known, Covered, Grows;
    pages' := r.pages;
    if base > last {
      GrowsRefl(r.pages, code);
    } else {
      PageOfPage(base);
      var here := if base in icache then [] else [PageRecord(code, base)];
      var r1 := if base in icache then r else r.(pages := r.pages[base := CodeAt(code, base, PAGE)]);
      if base !in icache {
        PageConsumed(r, leftover, code, base);
      } else {
        GrowsRefl(r.pages, code);
      }
      assert Consume(r, leftover, here) == Run(r1, []);
      forall a | a in icache ensures Covered(r1.pages, code, a, PAGE) {
        CoveredGrows(r.pages, r1.pages, code, a, PAGE);
      }
      pages' := PagesConsumed(r1, leftover, icache, code, base + PAGE, last);
      ConsumeConcat(r, leftover, here, PageRecords(icache, code, base + PAGE, last));
      GrowsTrans(r.pages, r1.pages, pages', code);
      CoveredGrows(r1.pages, pages', code, base, PAGE);
    }
  }

  lemma GrowsRefl(pages: map<nat, Page>, code: Code)
    ensures Grows(pages, pages, code)
  {
  }

  lemma PageConsumed(r: Reader, leftover: nat -> Page, code: Code, base: nat)
    requires PageOf(base) == base && base < WORD
    ensures var r1 := r.(pages := r.pages[base := CodeAt(code, base, PAGE)]);
      && Consume(r, leftover, [PageRecord(code, base)]) == Run(r1, [])
      && Grows(r.pages, r1.pages, code) && Covered(r1.pages, code, base, PAGE)
  {
    hide PageOf, Known, Covered, Grows, Bytes, Value, Limit;
    var payload := Bytes(8, base) + CodeAt(code, base, PAGE);
    Limits();
    ValueOfBytes(8, base);
    assert payload[..8] == Bytes(8, base) && payload[8..] == CodeAt(code, base, PAGE);
    var page := if base in r.pages then r.pages[base] else leftover(base);
    assert Patched(r.pages, leftover, base, 0, CodeAt(code, base, PAGE)) == CodeAt(code, base, PAGE);
    PatchedKnows(r.pages, leftover, code, base, 0, CodeAt(code, base, PAGE));
    var r1 := r.(pages := r.pages[base := CodeAt(code, base, PAGE)]);
    assert Step(r, leftover, PageRecord(code, base)) == Run(r1, []);
  }

  /** Consecutive pages cover everything between them. */
  lemma {:induction false} PagesCover(pages: map<nat, Page>, code: Code, base: nat, last: nat)
    requires PageOf(base) == base && PageOf(last) == last && base <= last
    requires forall a | a in PageSet(base, last) :: Covered(pages, code, a, PAGE)
    ensures Covered(pages, code, base, last + PAGE - base)
    decreases last - base
  {
    hide PageOf, Known, Covered;
    PageOfPage(base);
    assert Covered(pages, code, base, PAGE);
    if base < last {
      PagesApart(base, last);
      PagesCover(pages, code, base + PAGE, last);
      CoveredConcat(pages, code, base, PAGE, last - base);
    }
  }

  lemma PagesApart(base: nat, last: nat)
    requires PageOf(base) == base && PageOf(last) == last && base < last
    ensures base + PAGE <= last
  {
    if last < base + PAGE {
      PageOfWithin(base, last);
    }
  }

  /** The code records before an instruction give the reader all of the instruction's code. */
  lemma CodeConsumed(w: Writer, r: Reader, leftover: nat -> Page, code: Code, length: nat -> nat, mode: Mode, i: Instr)
    returns (pages': map<nat, Page>)
    requires InStep(w, r, code, length, mode) && InstrOk(i, length)
    ensures Consume(r, leftover, CodeRecords(w, code, mode.perInsn, i)) == Run(r.(pages := pages'), [])
    ensures Grows(r.pages, pages', code) && Covered(pages', code, i.addr, i.size)
    ensures forall a | a in CodeSent(w, mode.perInsn, i) :: Covered(pages', code, a, Sent(mode.perInsn, length, a))
  {
    hide PageOf, Known, Covered, Grows, StaticsOk;
    if mode.perInsn {
      pages' := InsnConsumed(w, r, leftover, code, length, mode, i);
    } else {
      var base, last := PageOf(i.addr), PageOf(i.addr + i.size - 1);
      PageOfPage(i.addr);
      PageOfPage(i.addr + i.size - 1);
      pages' := PagesConsumed(r, leftover, w.icache, code, base, last);
      PagesInOrder(i.addr, i.addr + i.size - 1);
      PagesCover(pages', code, base, last);
      CoveredInside(pages', code, base, last + PAGE - base, i.addr, i.size);
      forall a | a in w.icache ensures Covered(pages', code, a, PAGE) {
        CoveredGrows(r.pages, pages', code, a, PAGE);
      }
    }
  }

  lemma PagesInOrder(a: nat, b: nat)
    requires a <= b
    ensures PageOf(a) <= PageOf(b)
  {
    if PageOf(b) < PageOf(a) {
      PageOfPage(a);
      PageOfPage(b);
      PagesApart(PageOf(b), PageOf(a));
    }
  }

  lemma CoveredInside(pages: map<nat, Page>, code: Code, a: nat, m: nat, b: nat, n: nat)
    requires Covered(pages, code, a, m) && a <= b && b + n <= a + m
    ensures Covered(pages, code, b, n)
  {
  }

  lemma InsnConsumed(w: Writer, r: Reader, leftover: nat -> Page, code: Code, length: nat -> nat, mode: Mode, i: Instr)
    returns (pages': map<nat, Page>)
    requires InStep(w, r, code, length, mode) && mode.perInsn && InstrOk(i, length)
    ensures Consume(r, leftover, CodeRecords(w, code, true, i)) == Run(r.(pages := pages'), [])
    ensures Grows(r.pages, pages', code) && Covered(pages', code, i.addr, i.size)
    ensures forall a | a in w.icache :: Covered(pages', code, a, length(a))
  {
    hide PageOf, Known, Covered, Grows, StaticsOk, Bytes, Value, Limit, Patch;
    pages' := r.pages;
    if i.addr in w.icache {
      GrowsRefl(r.pages, code);
      assert Covered(r.pages, code, i.addr, Sent(true, length, i.addr));
    } else {
      var bytes := CodeAt(code, i.addr, i.size);
      var payload := Bytes(8, i.addr) + bytes;
      Limits();
      ValueOfBytes(8, i.addr);
      assert payload[..8] == Bytes(8, i.addr) && payload[8..] == bytes;
      pages' := Patch(r.pages, leftover, i.addr, bytes);
      PatchKnows(r.pages, leftover, code, i.addr, bytes);
      assert Step(r, leftover, Other(ICACHE_VARIABLE, payload)) == Run(r.(pages := pages'), []);
    }
    forall a | a in w.icache ensures Covered(pages', code, a, length(a)) {
      assert Covered(r.pages, code, a, Sent(true, length, a));
      CoveredGrows(r.pages, pages', code, a, length(a));
    }
  }

  lemma InstrStep(w: Writer, r: Reader, leftover: nat -> Page, i: Instr)
    requires r.last == w.last
    ensures Step(r, leftover, InstrRecord(w, i)) == Instruction(r, AsRead(w, i))
  {
    hide Instruction;
  }

  /** The record of an instruction, read when its code is there. */
  lemma InstrConsumed(w: Writer, r: Reader, leftover: nat -> Page, code: Code, length: nat -> nat, i: Instr)
    returns (r': Reader)
    requires r.last == w.last && StaticsOk(r, code, length) && InstrOk(i, length)
    requires Covered(r.pages, code, i.addr, i.size)
    ensures Step(r, leftover, InstrRecord(w, i)) == Run(r', [Executed(AsRead(w, i), CodeAt(code, i.addr, i.size))])
    ensures r'.last == i.addr + i.size && r'.pages == r.pages && r'.vcache == r.vcache && StaticsOk(r', code, length)
  {
    hide Covered, Fetch, Step, InstrRecord, StaticsOk, Instruction;
    InstrStep(w, r, leftover, i);
    FetchGivesCode(r.pages, code, i.addr, i.size);
    InstructionGivesCode(r, code, length, AsRead(w, i));
    r' := Instruction(r, AsRead(w, i)).reader;
  }

  lemma InstructionGivesCode(r: Reader, code: Code, length: nat -> nat, i: Instr)
    requires StaticsOk(r, code, length) && i.size == length(i.addr) && i.addr + i.size < WORD
    requires Fetch(r.pages, i.addr, i.size) == Some(CodeAt(code, i.addr, i.size))
    ensures var run := Instruction(r, i);
      && run.Run? && run.events == [Executed(i, CodeAt(code, i.addr, i.size))]
      && run.reader.last == i.addr + i.size && run.reader.pages == r.pages && run.reader.vcache == r.vcache
      && StaticsOk(run.reader, code, length)
  {
    hide Fetch, CodeAt;
    assert (i.addr + i.size) % WORD == i.addr + i.size;
  }

  /** The reader ends up with the mappings the writer sent. */
  lemma {:induction false} MapsConsumed(r: Reader, leftover: nat -> Page, touches: seq<Touch>)
    requires TouchesOk(touches)
    ensures Consume(r, leftover, MapRecords(r.vcache, touches)) == Run(r.(vcache := Mapped(r.vcache, touches)), [])
    decreases |touches|
  {
    hide Step, Fresh, MapRecord;
    if touches == [] {
      assert r.(vcache := r.vcache) == r;
    } else {
      var t := touches[0];
      assert TouchesOk(touches[1..]);
      if Fresh(r.vcache, t) {
        var r1 := MapConsumed(r, leftover, t.va / PAGE, t.pp);
        MapsConsumed(r1, leftover, touches[1..]);
        ConsumeConcat(r, leftover, [MapRecord(t.va / PAGE, t.pp)], MapRecords(r1.vcache, touches[1..]));
      } else {
        MapsConsumed(r, leftover, touches[1..]);
      }
    }
  }

  lemma OfferedOk(mode: Mode, c: Call, length: nat -> nat)
    requires CallOk(c, length)
    ensures TouchesOk(Offered(mode, c))
  {
  }

  /** One call: the reader yields what was written, and both sides are in step again. */
  lemma CallConsumed(w: Writer, r: Reader, leftover: nat -> Page, code: Code, length: nat -> nat, mode: Mode, c: Call)
    returns (r': Reader)
    requires InStep(w, r, code, length, mode) && CallOk(c, length) && Taken(c)
    ensures Consume(r, leftover, CallRecords(w, code, mode, c)) == Run(r', Expected(w, code, c))
    ensures InStep(CallNext(w, mode, c), r', code, length, mode)
  {
    OfferedOk(mode, c, length);
    match c
    case Execute(i, entries) =>
      r' := ExecuteConsumed(w, r, leftover, code, length, mode, c);
    case Report(kind, payload, touches) =>
      hide Covered, StaticsOk, Consume, TouchesOk, MapRecords, Mapped, Offered;
      var maps := MapRecords(w.va2pa, Offered(mode, c));
      MapsConsumed(r, leftover, Offered(mode, c));
      r' := r.(vcache := Mapped(r.vcache, Offered(mode, c)));
      ReportConsumed(r', leftover, kind, payload);
      ConsumeConcat(r, leftover, maps, [Other(kind, payload)]);
      StaticsDecide(r, r', code, length);
  }

  lemma ExecuteConsumed(w: Writer, r: Reader, leftover: nat -> Page, code: Code, length: nat -> nat, mode: Mode,
                        c: Call)
    returns (r': Reader)
    requires InStep(w, r, code, length, mode) && CallOk(c, length) && c.Execute? && TouchesOk(Offered(mode, c))
    ensures Consume(r, leftover, CallRecords(w, code, mode, c)) == Run(r', Expected(w, code, c))
    ensures InStep(CallNext(w, mode, c), r', code, length, mode)
  {
    hide Covered, Grows, Fetch, CodeRecords, StaticsOk, Step, Instruction, AsRead, TouchesOk, MapRecords, Mapped,
         Offered, CodeSent, CodeAt, InstrRecord;
    var i := c.instr;
    var pages' := CodeConsumed(w, r, leftover, code, length, mode, i);
    var r1 := r.(pages := pages');
    MapsConsumed(r1, leftover, Offered(mode, c));
    var r2 := r1.(vcache := Mapped(r.vcache, Offered(mode, c)));
    StaticsDecide(r, r2, code, length);
    r' := InstrConsumed(w, r2, leftover, code, length, i);
    assert Consume(r2, leftover, [InstrRecord(w, i)]) == Run(r', Expected(w, code, c));
    var codes, maps := CodeRecords(w, code, mode.perInsn, i), MapRecords(w.va2pa, Offered(mode, c));
    ConsumeConcat(r, leftover, codes, maps);
    ConsumeConcat(r, leftover, codes + maps, [InstrRecord(w, i)]);
  }

  /** What a call needs comes before it: when only its own record is left, the reader has yielded nothing yet and
      knows every mapping and all code the writer has sent. */
  lemma CallComesLast(w: Writer, r: Reader, leftover: nat -> Page, code: Code, length: nat -> nat, mode: Mode, c: Call)
    requires InStep(w, r, code, length, mode) && CallOk(c, length)
    ensures var recs := CallRecords(w, code, mode, c);
      var before := Consume(r, leftover, recs[..|recs| - 1]);
      && before.Run? && before.events == [] && before.reader.vcache == CallNext(w, mode, c).va2pa
      && (c.Execute? ==> Covered(before.reader.pages, code, c.instr.addr, c.instr.size))
      && match recs[|recs| - 1]
         case Other(kind, payload) => c.Report? && kind == c.kind && payload == c.payload
         case _ => c.Execute?
  {
    hide Covered, StaticsOk, Consume, MapRecords, Mapped, Offered, CodeRecords, TouchesOk, CodeSent, Grows;
    OfferedOk(mode, c, length);
    var maps, recs := MapRecords(w.va2pa, Offered(mode, c)), CallRecords(w, code, mode, c);
    match c
    case Execute(i, entries) =>
      var codes := CodeRecords(w, code, mode.perInsn, i);
      assert recs[..|recs| - 1] == codes + maps;
      var pages' := CodeConsumed(w, r, leftover, code, length, mode, i);
      MapsConsumed(r.(pages := pages'), leftover, Offered(mode, c));
      ConsumeConcat(r, leftover, codes, maps);
    case Report(kind, payload, _) =>
      assert recs[..|recs| - 1] == maps;
      MapsConsumed(r, leftover, Offered(mode, c));
  }

  lemma StaticsDecide(r: Reader, r': Reader, code: Code, length: nat -> nat)
    requires StaticsOk(r, code, length) && r'.statics == r.statics
    ensures StaticsOk(r', code, length)
  {
  }

  lemma ReportConsumed(r: Reader, leftover: nat -> Page, kind: Byte, payload: seq<Byte>)
    requires Reported(kind) && SizeOk(kind, |payload|)
    ensures Consume(r, leftover, [Other(kind, payload)]) == Run(r, [Handled(kind, payload)])
  {
  }

  lemma MapConsumed(r: Reader, leftover: nat -> Page, vp: nat, pp: nat) returns (r': Reader)
    requires vp < WORD && pp < WORD
    ensures r' == r.(vcache := r.vcache[vp := pp])
    ensures Consume(r, leftover, [MapRecord(vp, pp)]) == Run(r', [])
  {
    hide Bytes, Value, Limit;
    r' := r.(vcache := r.vcache[vp := pp]);
    var payload := Bytes(8, vp) + Bytes(8, pp);
    Limits();
    ValueOfBytes(8, vp);
    ValueOfBytes(8, pp);
    assert payload[..8] == Bytes(8, vp) && payload[8..] == Bytes(8, pp);
  }

  // ---------- whole traces ----------

  predicate CallsOk(calls: seq<Call>, length: nat -> nat) {
    forall k | 0 <= k < |calls| :: CallOk(calls[k], length)
  }

  ghost predicate AllTaken(calls: seq<Call>) {
    forall k | 0 <= k < |calls| :: Taken(calls[k])
  }

  /** The records of a whole run of the writer, end record included. */
  function Written(w: Writer, code: Code, length: nat -> nat, mode: Mode, calls: seq<Call>): seq<Record>
    requires CallsOk(calls, length)
    decreases |calls|
  {
    if calls == [] then [Other(END, [])]
    else CallRecords(w, code, mode, calls[0])
         + Written(CallNext(w, mode, calls[0]), code, length, mode, calls[1..])
  }

  function AllExpected(w: Writer, code: Code, length: nat -> nat, mode: Mode, calls: seq<Call>): seq<Event>
    requires CallsOk(calls, length)
    decreases |calls|
  {
    if calls == [] then [Ended]
    else Expected(w, code, calls[0]) + AllExpected(CallNext(w, mode, calls[0]), code, length, mode, calls[1..])
  }

  function LastWriter(w: Writer, length: nat -> nat, mode: Mode, calls: seq<Call>): Writer
    requires CallsOk(calls, length)
    decreases |calls|
  {
    if calls == [] then w else LastWriter(CallNext(w, mode, calls[0]), length, mode, calls[1..])
  }

  /** Events that come before those of another run. */
  function Before(events: seq<Event>, others: Run): Run {
    if others.Refused? then Refused else Run(others.reader, events + others.events)
  }

  /** The events of a byte stream, up to the end record. */
  function ReadAll(r: Reader, leftover: nat -> Page, s: seq<Byte>): Run
    decreases |s|
  {
    DecodeShrinks(s);
    var parsed := Decode(s);
    if parsed.Truncated? then Refused else
    var step := Step(r, leftover, parsed.record);
    if step.Refused? then Refused
    else if Ended in step.events then step
    else Before(step.events, ReadAll(step.reader, leftover, parsed.rest))
  }

  /** If the reader stops with an error, then not at an instruction. */
  ghost predicate InstructionsTaken(r: Reader, leftover: nat -> Page, s: seq<Byte>)
    decreases |s|
  {
    DecodeShrinks(s);
    var parsed := Decode(s);
    parsed.Parsed? ==>
      var step := Step(r, leftover, parsed.record);
      if step.Refused? then parsed.record.Other?
      else Ended in step.events || InstructionsTaken(step.reader, leftover, parsed.rest)
  }

  ghost predicate Ordinary(rec: Record) {
    RecordOk(rec) && (rec.Other? ==> rec.kind != END)
  }

  ghost predicate AllOrdinary(recs: seq<Record>)
    ensures AllOrdinary(recs) ==> AllOk(recs)
  {
    forall i | 0 <= i < |recs| :: Ordinary(recs[i])
  }

  lemma OrdinaryDoesNotEnd(r: Reader, leftover: nat -> Page, rec: Record)
    requires Ordinary(rec) && Step(r, leftover, rec).Run?
    ensures Ended !in Step(r, leftover, rec).events
  {
  }

  lemma BeforeConcat(a: seq<Event>, b: seq<Event>, others: Run)
    ensures Before(a + b, others) == Before(a, Before(b, others))
    ensures Before([], others) == others
  {
    if others.Run? {
      assert (a + b) + others.events == a + (b + others.events);
      assert [] + others.events == others.events;
    }
  }

  /** Reading bytes is taking in the records they encode. */
  lemma {:induction false} BytesAreRecords(r: Reader, leftover: nat -> Page, recs: seq<Record>, s: seq<Byte>)
    requires AllOrdinary(recs) && Consume(r, leftover, recs).Run?
    ensures var c := Consume(r, leftover, recs);
      && ReadAll(r, leftover, EncodeAll(recs) + s) == Before(c.events, ReadAll(c.reader, leftover, s))
      && (InstructionsTaken(c.reader, leftover, s) ==> InstructionsTaken(r, leftover, EncodeAll(recs) + s))
    decreases |recs|
  {
    hide Step, Encode, Decode, RecordOk, Before;
    if recs == [] {
      assert EncodeAll(recs) + s == s;
      BeforeConcat([], [], ReadAll(r, leftover, s));
    } else {
      var rest := EncodeAll(recs[1..]) + s;
      assert Ordinary(recs[0]);
      DecodeEncode(recs[0], rest);
      assert EncodeAll(recs) + s == Encode(recs[0]) + rest;
      OrdinaryDoesNotEnd(r, leftover, recs[0]);
      var first := Step(r, leftover, recs[0]);
      var c1 := Consume(first.reader, leftover, recs[1..]);
      BytesAreRecords(first.reader, leftover, recs[1..], s);
      BeforeConcat(first.events, c1.events, ReadAll(c1.reader, leftover, s));
    }
  }

  lemma {:induction false} PagesAreOrdinary(icache: set<nat>, code: Code, base: nat, last: nat)
    ensures AllOrdinary(PageRecords(icache, code, base, last))
    decreases last + PAGE - base
  {
    if base <= last {
      PagesAreOrdinary(icache, code, base + PAGE, last);
    }
  }

  lemma {:induction false} MapsAreOrdinary(va2pa: map<nat, nat>, touches: seq<Touch>)
    ensures AllOrdinary(MapRecords(va2pa, touches))
    decreases |touches|
  {
    if touches != [] {
      var t := touches[0];
      MapsAreOrdinary(if Fresh(va2pa, t) then va2pa[t.va / PAGE := t.pp] else va2pa, touches[1..]);
    }
  }

  lemma CodeIsOrdinary(w: Writer, code: Code, perInsn: bool, i: Instr)
    requires 0 < i.size < 16
    ensures AllOrdinary(CodeRecords(w, code, perInsn, i))
  {
    if !perInsn {
      PagesAreOrdinary(w.icache, code, PageOf(i.addr), PageOf(i.addr + i.size - 1));
    }
  }

  lemma CallIsOrdinary(w: Writer, code: Code, length: nat -> nat, mode: Mode, c: Call)
    requires CallOk(c, length)
    ensures AllOrdinary(CallRecords(w, code, mode, c))
  {
    hide CodeRecords, MapRecords, Offered;
    MapsAreOrdinary(w.va2pa, Offered(mode, c));
    if c.Execute? {
      CodeIsOrdinary(w, code, mode.perInsn, c.instr);
    }
  }

  lemma FirstCallOk(calls: seq<Call>, length: nat -> nat)
    requires CallsOk(calls, length) && calls != []
    ensures CallOk(calls[0], length) && CallsOk(calls[1..], length) && Complete(calls[0])
  {
  }

  lemma {:induction false} WrittenOk(w: Writer, code: Code, length: nat -> nat, mode: Mode, calls: seq<Call>)
    requires CallsOk(calls, length)
    ensures AllOk(Written(w, code, length, mode, calls))
    decreases |calls|
  {
    hide CallsOk, CallOk, CallRecords, CallNext, RecordOk;
    if calls == [] {
      assert RecordOk(Other(END, [])) by { EndIsOrdinary(); }
    } else {
      FirstCallOk(calls, length);
      CallIsOrdinary(w, code, length, mode, calls[0]);
      WrittenOk(CallNext(w, mode, calls[0]), code, length, mode, calls[1..]);
    }
  }

  lemma EndIsOrdinary()
    ensures RecordOk(Other(END, []))
  {
  }

  /** The bytes of the first call, and those of the others. */
  lemma WrittenSplits(w: Writer, code: Code, length: nat -> nat, mode: Mode, calls: seq<Call>, rest: seq<Byte>)
    requires CallsOk(calls, length) && calls != []
    ensures Complete(calls[0]) && CallsOk(calls[1..], length)
    ensures var recs := CallRecords(w, code, mode, calls[0]);
      var tail := Written(CallNext(w, mode, calls[0]), code, length, mode, calls[1..]);
      && AllOrdinary(recs) && AllOk(tail) && AllOk(Written(w, code, length, mode, calls))
      && EncodeAll(Written(w, code, length, mode, calls)) + rest == EncodeAll(recs) + (EncodeAll(tail) + rest)
  {
    hide CallsOk, CallOk, CallRecords, CallNext, RecordOk, Encode;
    FirstCallOk(calls, length);
    var recs := CallRecords(w, code, mode, calls[0]);
    var tail := Written(CallNext(w, mode, calls[0]), code, length, mode, calls[1..]);
    CallIsOrdinary(w, code, length, mode, calls[0]);
    WrittenOk(CallNext(w, mode, calls[0]), code, length, mode, calls[1..]);
    EncodeAllConcat(recs, tail);
    assert EncodeAll(recs + tail) + rest == EncodeAll(recs) + (EncodeAll(tail) + rest);
  }

  /** From bytes to events: what the reader reports is what the writer was told, whatever follows the end record,
      and at the end both sides are in step. */
  lemma {:induction false} TraceFrom(w: Writer, r: Reader, leftover: nat -> Page, code: Code, length: nat -> nat,
                                     mode: Mode, calls: seq<Call>, rest: seq<Byte>) returns (r': Reader)
    requires InStep(w, r, code, length, mode) && CallsOk(calls, length) && AllTaken(calls)
    ensures AllOk(Written(w, code, length, mode, calls))
    ensures ReadAll(r, leftover, EncodeAll(Written(w, code, length, mode, calls)) + rest)
         == Run(r', AllExpected(w, code, length, mode, calls))
    ensures InstructionsTaken(r, leftover, EncodeAll(Written(w, code, length, mode, calls)) + rest)
    ensures InStep(LastWriter(w, length, mode, calls), r', code, length, mode)
    decreases |calls|
  {
    hide InStep, CallsOk, CallOk, Taken, Step, Encode, EncodeAll, Decode, RecordOk, CallRecords, CallNext, Expected,
         ReadAll, InstructionsTaken;
    if calls == [] {
      EndIsRead(r, leftover, rest);
      r' := r;
    } else {
      var c := calls[0];
      FirstCallOk(calls, length);
      var w1 := CallNext(w, mode, c);
      var tail := Written(w1, code, length, mode, calls[1..]);
      var r1 := CallConsumed(w, r, leftover, code, length, mode, c);
      WrittenSplits(w, code, length, mode, calls, rest);
      r' := TraceFrom(w1, r1, leftover, code, length, mode, calls[1..], rest);
      BytesAreRecords(r, leftover, CallRecords(w, code, mode, c), EncodeAll(tail) + rest);
    }
  }

  lemma EndIsRead(r: Reader, leftover: nat -> Page, rest: seq<Byte>)
    ensures AllOk([Other(END, [])])
    ensures ReadAll(r, leftover, EncodeAll([Other(END, [])]) + rest) == Run(r, [Ended])
    ensures InstructionsTaken(r, leftover, EncodeAll([Other(END, [])]) + rest)
  {
    hide Encode, Decode;
    DecodeEncode(Other(END, []), rest);
    assert EncodeAll([Other(END, [])]) == Encode(Other(END, []));
  }

  /** The reader fails at a system call or an output without data, wherever it comes in the trace. */
  lemma {:induction false} TraceRefused(w: Writer, r: Reader, leftover: nat -> Page, code: Code, length: nat -> nat,
                                        mode: Mode, calls: seq<Call>, rest: seq<Byte>)
    requires InStep(w, r, code, length, mode) && CallsOk(calls, length) && !AllTaken(calls)
    ensures AllOk(Written(w, code, length, mode, calls))
    ensures ReadAll(r, leftover, EncodeAll(Written(w, code, length, mode, calls)) + rest) == Refused
    ensures InstructionsTaken(r, leftover, EncodeAll(Written(w, code, length, mode, calls)) + rest)
    decreases |calls|
  {
    hide InStep, CallsOk, CallOk, Taken, Step, Encode, EncodeAll, Decode, RecordOk, CallRecords, CallNext, Expected,
         ReadAll, InstructionsTaken;
    var c := calls[0];
    FirstCallOk(calls, length);
    WrittenSplits(w, code, length, mode, calls, rest);
    var w1 := CallNext(w, mode, c);
    var tail := Written(w1, code, length, mode, calls[1..]);
    if Taken(c) {
      var r1 := CallConsumed(w, r, leftover, code, length, mode, c);
      assert forall k | 1 <= k < |calls| :: calls[k] == calls[1..][k - 1];
      TraceRefused(w1, r1, leftover, code, length, mode, calls[1..], rest);
      BytesAreRecords(r, leftover, CallRecords(w, code, mode, c), EncodeAll(tail) + rest);
    } else {
      EmptyRefused(w, r, leftover, code, length, mode, c, EncodeAll(tail) + rest);
    }
  }

  lemma EmptyRefused(w: Writer, r: Reader, leftover: nat -> Page, code: Code, length: nat -> nat, mode: Mode, c: Call,
                     rest: seq<Byte>)
    requires InStep(w, r, code, length, mode) && CallOk(c, length) && !Taken(c)
    requires AllOk(CallRecords(w, code, mode, c))
    ensures ReadAll(r, leftover, EncodeAll(CallRecords(w, code, mode, c)) + rest) == Refused
    ensures InstructionsTaken(r, leftover, EncodeAll(CallRecords(w, code, mode, c)) + rest)
  {
    hide Covered, StaticsOk, Encode, EncodeAll, Decode, Consume, MapRecords, Mapped, Offered, RecordOk;
    var maps, bad := MapRecords(w.va2pa, Offered(mode, c)), Other(c.kind, c.payload);
    OfferedOk(mode, c, length);
    MapsConsumed(r, leftover, Offered(mode, c));
    MapsAreOrdinary(w.va2pa, Offered(mode, c));
    var r1 := r.(vcache := Mapped(r.vcache, Offered(mode, c)));
    BadIsRefused(r1, leftover, bad, rest);
    EncodeAllConcat(maps, [bad]);
    assert EncodeAll(maps + [bad]) + rest == EncodeAll(maps) + (EncodeAll([bad]) + rest);
    BytesAreRecords(r, leftover, maps, EncodeAll([bad]) + rest);
  }

  lemma BadIsRefused(r: Reader, leftover: nat -> Page, bad: Record, rest: seq<Byte>)
    requires bad.Other? && |bad.payload| < 0x1_0000_0000
    requires (bad.kind == SYSCALL_REQUEST && |bad.payload| == 2) || (bad.kind == OUTPUT && |bad.payload| == 1)
    ensures AllOk([bad]) && ReadAll(r, leftover, EncodeAll([bad]) + rest) == Refused
    ensures InstructionsTaken(r, leftover, EncodeAll([bad]) + rest)
  {
    hide Encode, Decode;
    DecodeEncode(bad, rest);
    assert EncodeAll([bad]) == Encode(bad);
  }

  const NEW_WRITER: Writer := Writer(0, {}, map[])
  const NEW_READER: Reader := Reader(0, map[], map[], map[])

  /** What a call should look like on the other side. */
  function Told(code: Code, c: Call): seq<Event> {
    match c
    case Execute(i, _) => [Executed(i, CodeAt(code, i.addr, i.size))]
    case Report(kind, payload, _) => [Handled(kind, payload)]
  }

  function AllTold(code: Code, calls: seq<Call>): seq<Event> {
    if calls == [] then [Ended] else Told(code, calls[0]) + AllTold(code, calls[1..])
  }

  /** No instruction is skipped without being predicated, unless it is not where the one before it ends. */
  predicate SkipsShow(last: nat, calls: seq<Call>)
    decreases |calls|
  {
    calls != [] ==>
      match calls[0]
      case Execute(i, _) => (i.isPredicate || i.executed || i.addr != last) && SkipsShow(i.addr + i.size, calls[1..])
      case Report(_, _, _) => SkipsShow(last, calls[1..])
  }

  lemma {:induction false} ToldExactly(w: Writer, code: Code, length: nat -> nat, mode: Mode, calls: seq<Call>)
    requires CallsOk(calls, length)
    ensures AllExpected(w, code, length, mode, calls) == AllTold(code, calls) <==> SkipsShow(w.last, calls)
    decreases |calls|
  {
    hide CallsOk, CallOk, CodeAt, Offered, Mapped, CodeSent;
    if calls != [] {
      FirstCallOk(calls, length);
      var w1 := CallNext(w, mode, calls[0]);
      ToldExactly(w1, code, length, mode, calls[1..]);
      SameHalves(Expected(w, code, calls[0]), AllExpected(w1, code, length, mode, calls[1..]),
                 Told(code, calls[0]), AllTold(code, calls[1..]));
      if calls[0].Execute? {
        ReadBackExactly(w, code, calls[0]);
      }
    }
  }

  lemma ReadBackExactly(w: Writer, code: Code, c: Call)
    requires c.Execute?
    ensures Expected(w, code, c) == Told(code, c) <==> c.instr.isPredicate || c.instr.executed || c.instr.addr != w.last
  {
    var e, t := Expected(w, code, c), Told(code, c);
    assert e == t <==> e[0] == t[0];
  }

  lemma SameHalves<T>(a: seq<T>, b: seq<T>, c: seq<T>, d: seq<T>)
    requires |a| == |c|
    ensures a + b == c + d <==> a == c && b == d
  {
    if a + b == c + d {
      assert a == (a + b)[..|a|] && c == (c + d)[..|a|];
      assert b == (a + b)[|a|..] && d == (c + d)[|a|..];
    }
  }

  /** A trace is read to its end if and only if no system call and no output in it is empty; reading gives exactly
      the calls that wrote it if and only if, moreover, skipped instructions show. */
  lemma TraceRoundTrip(leftover: nat -> Page, code: Code, length: nat -> nat, mode: Mode, calls: seq<Call>,
                       rest: seq<Byte>)
    requires CallsOk(calls, length)
    ensures AllOk(Written(NEW_WRITER, code, length, mode, calls))
    ensures var run := ReadAll(NEW_READER, leftover, EncodeAll(Written(NEW_WRITER, code, length, mode, calls)) + rest);
      && (run.Run? <==> AllTaken(calls))
      && (run.Run? && run.events == AllTold(code, calls) <==> AllTaken(calls) && SkipsShow(0, calls))
    ensures InstructionsTaken(NEW_READER, leftover, EncodeAll(Written(NEW_WRITER, code, length, mode, calls)) + rest)
  {
    hide CallsOk, InstructionsTaken, AllTaken, Written, ReadAll, EncodeAll, AllExpected, AllTold, SkipsShow, LastWriter;
    if AllTaken(calls) {
      var r' := TraceFrom(NEW_WRITER, NEW_READER, leftover, code, length, mode, calls, rest);
      ToldExactly(NEW_WRITER, code, length, mode, calls);
    } else {
      TraceRefused(NEW_WRITER, NEW_READER, leftover, code, length, mode, calls, rest);
    }
  }

  /** One instruction at 0x400000, then one right behind it that is neither predicated nor executed. */
  function SkippedInstruction(): seq<Call> {
    [Execute(Instr(0x400000, 4, [], true, false, false, true), [0]),
     Execute(Instr(0x400004, 4, [], false, false, false, false), [0])]
  }

  /** The second instruction comes back as executed. */
  lemma SkippedComesBackExecuted(leftover: nat -> Page, code: Code, mode: Mode)
    ensures var length := (a: nat) => 4;
      var calls := SkippedInstruction();
      && CallsOk(calls, length) && AllTaken(calls) && AllOk(Written(NEW_WRITER, code, length, mode, calls))
      && var run := ReadAll(NEW_READER, leftover, EncodeAll(Written(NEW_WRITER, code, length, mode, calls)));
         run.Run? && run.events != AllTold(code, calls)
         && run.events == [Executed(calls[0].instr, CodeAt(code, 0x400000, 4)),
                           Executed(calls[1].instr.(executed := true), CodeAt(code, 0x400004, 4)), Ended]
  {
    var length := (a: nat) => 4;
    var calls := SkippedInstruction();
    SkippedIsExpected(code, length, mode);
    hide CodeAt, SkippedInstruction, CallsOk, Written, ReadAll, EncodeAll, AllExpected, AllTold, LastWriter, InStep;
    NewInStep(code, length, mode);
    var r' := TraceFrom(NEW_WRITER, NEW_READER, leftover, code, length, mode, calls, []);
    var s := EncodeAll(Written(NEW_WRITER, code, length, mode, calls));
    assert s + [] == s;
    ToldExactly(NEW_WRITER, code, length, mode, calls);
  }

  lemma NewInStep(code: Code, length: nat -> nat, mode: Mode)
    ensures InStep(NEW_WRITER, NEW_READER, code, length, mode)
  {
  }

  lemma SkippedIsExpected(code: Code, length: nat -> nat, mode: Mode)
    requires forall a: nat :: length(a) == 4
    ensures var calls := SkippedInstruction();
      && |calls| == 2 && calls[0].Execute? && calls[1].Execute?
      && CallsOk(calls, length) && AllTaken(calls) && !SkipsShow(0, calls)
      && AllExpected(NEW_WRITER, code, length, mode, calls)
         == [Executed(calls[0].instr, CodeAt(code, 0x400000, 4)),
             Executed(calls[1].instr.(executed := true), CodeAt(code, 0x400004, 4)), Ended]
  {
    hide CodeAt, Offered, Mapped, CodeSent;
    var calls := SkippedInstruction();
    assert calls[1..] == [calls[1]] && calls[1..][1..] == [];
    assert CallsOk(calls, length) && CallsOk(calls[1..], length);
    var w1 := CallNext(NEW_WRITER, mode, calls[0]);
    assert AllExpected(w1, code, length, mode, calls[1..])
        == [Executed(calls[1].instr.(executed := true), CodeAt(code, 0x400004, 4))] + [Ended];
  }

  // ---------- physical addresses ----------

  /** The physical address the reader gives for a virtual one. */
  function Translate(r: Reader, physical: bool, va: nat): nat {
    if !physical then va
    else if va / PAGE !in r.vcache then 0
    else (r.vcache[va / PAGE] * PAGE) % WORD + va % PAGE
  }

  const FRAMES: nat := 0x10_0000_0000_0000  // pages in the address space

  /** A mapped address keeps its place in the page, and its page becomes the one mapped to. */
  lemma TranslatedPage(r: Reader, va: nat)
    requires va / PAGE in r.vcache
    ensures var pa := Translate(r, true, va);
      pa < WORD && pa % PAGE == va % PAGE && pa / PAGE == r.vcache[va / PAGE] % FRAMES
  {
    var pp := r.vcache[va / PAGE];
    assert pp == pp / FRAMES * FRAMES + pp % FRAMES;
    assert pp * PAGE == pp / FRAMES * WORD + pp % FRAMES * PAGE;
    assert (pp * PAGE) % WORD == pp % FRAMES * PAGE;
  }

  /** Every address the writer looked at in a run. */
  function AllOffered(length: nat -> nat, mode: Mode, calls: seq<Call>): seq<Touch>
    requires CallsOk(calls, length)
    decreases |calls|
  {
    if calls == [] then [] else Offered(mode, calls[0]) + AllOffered(length, mode, calls[1..])
  }

  /** The first page table entry of a page that said it is mapped. */
  function FirstEntry(touches: seq<Touch>, vp: nat): Option<nat> {
    if touches == [] then None
    else if touches[0].va / PAGE == vp && touches[0].pp != 0 then Some(touches[0].pp)
    else FirstEntry(touches[1..], vp)
  }

  lemma {:induction false} MappedIsFirst(va2pa: map<nat, nat>, touches: seq<Touch>, vp: nat)
    ensures var m := Mapped(va2pa, touches);
      if vp in va2pa then vp in m && m[vp] == va2pa[vp]
      else (vp in m <==> FirstEntry(touches, vp).Some?) && (vp in m ==> m[vp] == FirstEntry(touches, vp).value)
    decreases |touches|
  {
    if touches != [] {
      var t := touches[0];
      MappedIsFirst(if Fresh(va2pa, t) then va2pa[t.va / PAGE := t.pp] else va2pa, touches[1..], vp);
    }
  }

  lemma {:induction false} MappedConcat(va2pa: map<nat, nat>, a: seq<Touch>, b: seq<Touch>)
    ensures Mapped(va2pa, a + b) == Mapped(Mapped(va2pa, a), b)
    decreases |a|
  {
    if a == [] {
      assert a + b == b;
    } else {
      var t := a[0];
      assert (a + b)[1..] == a[1..] + b;
      MappedConcat(if Fresh(va2pa, t) then va2pa[t.va / PAGE := t.pp] else va2pa, a[1..], b);
    }
  }

  lemma {:induction false} LastMapped(w: Writer, length: nat -> nat, mode: Mode, calls: seq<Call>)
    requires CallsOk(calls, length)
    ensures LastWriter(w, length, mode, calls).va2pa == Mapped(w.va2pa, AllOffered(length, mode, calls))
    decreases |calls|
  {
    hide CallsOk, CallOk, Offered, CodeSent;
    if calls != [] {
      FirstCallOk(calls, length);
      LastMapped(CallNext(w, mode, calls[0]), length, mode, calls[1..]);
      MappedConcat(w.va2pa, Offered(mode, calls[0]), AllOffered(length, mode, calls[1..]));
    }
  }

  /** What an address should translate to: by the first page table entry the writer found for its page, 0 where it
      found none. */
  function Translated(length: nat -> nat, mode: Mode, calls: seq<Call>, va: nat): nat
    requires CallsOk(calls, length)
  {
    var entry := FirstEntry(AllOffered(length, mode, calls), va / PAGE);
    if !mode.physical then va else if entry.None? then 0 else (entry.value * PAGE) % WORD + va % PAGE
  }

  /** After a trace with physical addresses the reader translates an address by the first page table entry the writer
      found for its page, and gives 0 where the writer found none; other traces leave addresses alone. */
  lemma AddressesTranslate(leftover: nat -> Page, code: Code, length: nat -> nat, mode: Mode, calls: seq<Call>,
                           rest: seq<Byte>, va: nat)
    requires CallsOk(calls, length) && AllTaken(calls)
    ensures AllOk(Written(NEW_WRITER, code, length, mode, calls))
    ensures var run := ReadAll(NEW_READER, leftover, EncodeAll(Written(NEW_WRITER, code, length, mode, calls)) + rest);
      && run.Run?
      && Translate(run.reader, mode.physical, va) == Translated(length, mode, calls, va)
  {
    hide CallsOk, InstructionsTaken, AllTaken, Written, ReadAll, EncodeAll, AllExpected, LastWriter, Mapped, AllOffered;
    var r' := TraceFrom(NEW_WRITER, NEW_READER, leftover, code, length, mode, calls, rest);
    LastMapped(NEW_WRITER, length, mode, calls);
    MappedIsFirst(map[], AllOffered(length, mode, calls), va / PAGE);
  }

  // ---------- one call of the reader ----------

  datatype Reading = Stuck | Got(reader: Reader, rest: seq<Byte>, events: seq<Event>)

  function Returns(events: seq<Event>): bool {
    events != [] && !events[|events| - 1].Handled?
  }

  /** What happens up to the next instruction, or up to the end record. */
  function ReadNext(r: Reader, leftover: nat -> Page, s: seq<Byte>): Reading
    decreases |s|
  {
    DecodeShrinks(s);
    var parsed := Decode(s);
    if parsed.Truncated? then Stuck else
    var step := Step(r, leftover, parsed.record);
    if step.Refused? then Stuck
    else if Returns(step.events) then Got(step.reader, parsed.rest, step.events)
    else
      var others := ReadNext(step.reader, leftover, parsed.rest);
      if others.Stuck? then Stuck else Got(others.reader, others.rest, step.events + others.events)
  }

  lemma StepEvents(r: Reader, leftover: nat -> Page, rec: Record)
    requires Step(r, leftover, rec).Run?
    ensures var e := Step(r, leftover, rec).events; |e| <= 1 && (Ended in e <==> e == [Ended])
  {
  }

  /** Reading one instruction after another is reading the whole trace. */
  lemma {:induction false} ReadAllByNext(r: Reader, leftover: nat -> Page, s: seq<Byte>)
    ensures var next := ReadNext(r, leftover, s);
      && (next.Stuck? ==> ReadAll(r, leftover, s).Refused?)
      && (next.Got? ==>
           && |next.rest| < |s| && Returns(next.events)
           && ReadAll(r, leftover, s) ==
                if next.events[|next.events| - 1] == Ended then Run(next.reader, next.events)
                else Before(next.events, ReadAll(next.reader, leftover, next.rest)))
    decreases |s|
  {
    hide Step, Decode, Before;
    DecodeShrinks(s);
    var parsed := Decode(s);
    if parsed.Parsed? {
      var step := Step(r, leftover, parsed.record);
      if step.Run? {
        StepEvents(r, leftover, parsed.record);
        if !Returns(step.events) {
          ReadAllByNext(step.reader, leftover, parsed.rest);
          var others := ReadNext(step.reader, leftover, parsed.rest);
          if others.Got? {
            var next := ReadNext(r, leftover, s);
            assert next.events[|next.events| - 1] == others.events[|others.events| - 1];
            BeforeConcat(step.events, others.events, ReadAll(others.reader, leftover, others.rest));
            BeforeConcat(step.events, [], Run(others.reader, others.events));
          }
          BeforeRefused(step.events);
        }
      }
    }
  }

  lemma BeforeRefused(events: seq<Event>)
    ensures Before(events, Refused) == Refused
    ensures forall r, es :: Before(events, Run(r, es)) == Run(r, events + es)
  {
  }
}
