/** inflate_table of inftrees.c: the decoding tables of a canonical code. */
module InflateTable {
  import opened Bits
  import opened BitReversal
  import opened Counting
  import opened DeflateCodes
  import opened DeflateOrder
  import opened DecodingTable
  import opened TableSteps
  import opened SubTables
  import opened TableSpace

  // ---- the big loop ----

  /** Its variables: the place of the symbol, its length and reversed code, offset and size of
      the table being filled, the bits dropped, and the root entry that leads there. */
  datatype Cursor = Cursor(k: nat, len: int, huff: int, next: nat, curr: nat, drop: nat, low: int)

  /** The other symbols that begin like those of the current sub-table. */
  ghost predicate InTail(v: View, k: nat, low: int, t: int) {
    Used(v.lens, t) && Place(v.lens, t) >= k && v.lens[t] > v.root && RootIndex(v, t) == low
  }

  ghost predicate TailFits(v: View, k: nat, low: int, curr: nat) {
    forall t :: InTail(v, k, low, t) ==> v.lens[t] <= v.root + curr
  }

  /** The cursor stands at a symbol that belongs into the current table. */
  ghost predicate Standing(v: View, work: seq<int>, count: seq<int>, c: Cursor) {
    && c.k < Offs(v.lens, 16) && c.k < |work| && Remaining(v.lens, count, work[c.k])
    && c.len == v.lens[work[c.k]] && c.huff == Huff(v.lens, work[c.k]) && Fits(v, work[c.k], c.curr, c.drop, c.low)
    && TailFits(v, c.k, c.low, c.curr) && (c.drop == 0 ==> c.low == -1)
  }

  /** The head of the loop: all earlier symbols are entered. */
  ghost predicate AtSymbol(v: View, work: seq<int>, t: seq<Entry>, count: seq<int>, c: Cursor) {
    Building(v, work, t, c.k, c.next, c.curr, c.drop, c.low) && Standing(v, work, count, c)
  }

  /** This symbol is entered too. */
  ghost predicate PastSymbol(v: View, work: seq<int>, t: seq<Entry>, count: seq<int>, c: Cursor) {
    Building(v, work, t, c.k + 1, c.next, c.curr, c.drop, c.low) && Standing(v, work, count, c)
  }

  lemma PlaceOf(v: View, work: seq<int>, k: nat)
    requires Sorted(v.lens, work) && k < Offs(v.lens, 16)
    ensures k < |work| && Used(v.lens, work[k]) && Place(v.lens, work[k]) == k
  {
    hide Place;
  }

  // ---- the first symbol ----

  lemma NothingTimes(c: nat, p: nat)
    requires p > 0
    ensures c * p == 0 <==> c == 0
  {
  }

  lemma {:induction false} RevZero(n: nat)
    ensures Rev(0, n) == 0
  {
    if n > 0 { RevZero(n - 1); }
  }

  lemma {:induction false} FirstCode(lens: seq<int>, work: seq<int>, count: seq<int>, min: nat)
    requires CodeLens(lens) && NotOver(lens) && Sorted(lens, work) && Counted(lens, count)
    requires 1 <= min <= 15 && count[min] > 0 && forall l :: 1 <= l < min ==> count[l] == 0
    ensures 0 < Offs(lens, 16) && Remaining(lens, count, work[0]) && lens[work[0]] == min && Huff(lens, work[0]) == 0
  {
    hide Count, Offs, Space, NotOver, Pow2, Place, Code, Rev;
    NoneShorter(lens, min);
    OffsNext(lens, min);
    OffsMonotone(lens, min + 1, 16);
    var s := work[0];
    PlaceRange(lens, s);
    if lens[s] < min { OffsMonotone(lens, lens[s] + 1, min); }
    if lens[s] > min { OffsMonotone(lens, min + 1, lens[s]); }
    PosRemaining(lens, s);
    SpaceNext(lens, min);
    PowPositive(15 - min);
    NothingTimes(Code(lens, s), Pow2(15 - min));
    RevZero(min);
  }

  lemma {:induction false} Begin(v: View, work: seq<int>, t: seq<Entry>, count: seq<int>, min: nat)
    requires ValidView(v) && Sorted(v.lens, work) && Counted(v.lens, count) && Pow2(v.root) <= |t| && min <= v.root
    requires 1 <= min <= 15 && count[min] > 0 && forall l :: 1 <= l < min ==> count[l] == 0
    ensures AtSymbol(v, work, t, count, Cursor(0, min, 0, 0, v.root, 0, -1))
  {
    hide Count, Offs, NotOver, Place, Pow2, Huff;
    FirstCode(v.lens, work, count, min);
    PowPositive(v.root);
  }

  // ---- entering one symbol ----

  lemma WholeMultiple(k: nat, p: nat)
    requires p > 0
    ensures k * p % p == 0
  {
    MultipleMod(k, p, 0);
  }

  lemma {:induction false} DroppedFits(huff: nat, drop: nat, len: nat)
    requires huff < Pow2(len) && drop <= len
    ensures Pow2(drop) > 0 && 0 <= huff / Pow2(drop) < Pow2(len - drop)
  {
    hide Pow2;
    PowPositive(drop);
    PowSplit(len, drop);
    QuotientAtLeast(huff, 0, Pow2(drop));
    if huff / Pow2(drop) >= Pow2(len - drop) { MonotoneTimes(Pow2(len - drop), huff / Pow2(drop), Pow2(drop)); }
  }

  lemma {:induction false} EnterReady(v: View, work: seq<int>, t: seq<Entry>, count: seq<int>, c: Cursor)
    requires AtSymbol(v, work, t, count, c)
    ensures 0 <= c.drop < c.len <= 15 && 0 <= c.huff && c.next + Pow2(c.curr) <= |t| && Pow2(c.curr) > 0
        && Pow2(c.drop) > 0
    ensures Pow2(c.len - c.drop) > 0 && Pow2(c.curr) % Pow2(c.len - c.drop) == 0
    ensures 0 <= c.huff / Pow2(c.drop) < Pow2(c.len - c.drop)
    ensures c.k < |work| && 0 <= work[c.k] < Symbols(v.kind)
  {
    hide Pow2, Huff, Remaining, Place, Offs, Count, NotOver, TailFits;
    PowPositive(c.len - c.drop);
    PowPositive(c.curr);
    PowSplit(c.curr, c.len - c.drop);
    WholeMultiple(Pow2(c.curr - (c.len - c.drop)), Pow2(c.len - c.drop));
    HuffFits(v, work[c.k]);
    DroppedFits(c.huff, c.drop, c.len);
  }

  lemma FilledFromChosen(t: seq<Entry>, t1: seq<Entry>, start: nat, next: nat, size: nat, step: nat, first: nat,
      e: Entry, a: seq<Entry>, a1: seq<Entry>)
    requires step > 0 && start <= |a| == |a1| && t == a[start..] && t1 == a1[start..]
    requires forall i :: 0 <= i < |a| ==> a1[i] == if Chosen(i, start + next, 0, size, step, first) then e else a[i]
    ensures Filled(t, t1, next, size, step, first, e)
  {
    forall i | 0 <= i < |t| ensures t1[i] == if next <= i < next + size && (i - next) % step == first then e else t[i] {
      assert t1[i] == a1[start + i];
    }
  }

  lemma NotChosenOutside(at: nat, size: nat, incr: nat, first: nat)
    requires incr > 0
    ensures forall i :: Chosen(i, at, 0, size, incr, first) ==> at <= i < at + size
  {
  }

  lemma {:induction false} EnterDone(v: View, work: seq<int>, t: seq<Entry>, count: seq<int>, c: Cursor, t1: seq<Entry>)
    requires AtSymbol(v, work, t, count, c) && 0 <= c.drop < c.len && 0 <= c.huff
    requires Pow2(c.len - c.drop) > 0 && Pow2(c.drop) > 0 && 0 <= c.huff / Pow2(c.drop)
    requires c.k < |work| && 0 <= work[c.k] < Symbols(v.kind)
    requires Filled(t, t1, c.next, Pow2(c.curr), Pow2(c.len - c.drop), c.huff / Pow2(c.drop),
        SymEntry(v.kind, work[c.k], c.len - c.drop))
    ensures PastSymbol(v, work, t1, count, c)
  {
    hide Pow2, Huff, Remaining, Place, Offs, Count, NotOver, TailFits, Filled;
    EnterSymbol(v, work, t, t1, c.k, c.next, c.curr, c.drop, c.low);
  }

  /** Writes the entries of one symbol. */
  method Enter(table: array<Entry>, start: nat, kind: Kind, symbol: int, c: Cursor, ghost v: View, ghost work: seq<int>,
      ghost count: seq<int>)
    requires start <= table.Length && AtSymbol(v, work, table[start..], count, c) && v.kind == kind
        && symbol == work[c.k]
    modifies table
    ensures PastSymbol(v, work, table[start..], count, c)
    ensures forall i :: 0 <= i < table.Length && !(start + c.next <= i < start + c.next + Pow2(c.curr)) ==>
      table[i] == old(table[i])
  {
    hide *;
    ghost var t := table[start..];
    EnterReady(v, work, t, count, c);
    var first, incr, size := c.huff / Pow2(c.drop), Pow2(c.len - c.drop), Pow2(c.curr);
    var here := SymEntry(kind, symbol, c.len - c.drop);
    Replicate(table, start + c.next, first, incr, size, here);
    FilledFromChosen(t, table[start..], start, c.next, size, incr, first, here, old(table[..]), table[..]);
    EnterDone(v, work, t, count, c, table[start..]);
    NotChosenOutside(start + c.next, size, incr, first);
  }

  // ---- going on to the next symbol ----

  /** Whether there is a next symbol, and its length and code. */
  lemma {:induction false} Goes(v: View, work: seq<int>, t: seq<Entry>, count: seq<int>, c: Cursor)
    requires PastSymbol(v, work, t, count, c)
    ensures |count| == 16 && 0 < c.len <= 15 && 0 <= c.huff < Pow2(c.len) && count[c.len] >= 1
    ensures c.k + 1 == Offs(v.lens, 16) <==> count[c.len] - 1 == 0 && c.len == Longest(v.lens)
    ensures c.k + 1 <= Offs(v.lens, 16)
    ensures c.k + 1 < Offs(v.lens, 16) ==> HasNext(v, work, count, c)
  {
    hide Pow2, Huff, Offs, Place, Count, NotOver, Current, Entered, TailFits, Longest;
    var s := work[c.k];
    PlaceOf(v, work, c.k);
    RemainingSize(v.lens, count, s);
    LastSymbol(v.lens, count, s);
    HuffFits(v, s);
    PlaceRange(v.lens, s);
    LongestBounds(v.lens);
    if c.k + 1 < Offs(v.lens, 16) {
      PlaceOf(v, work, c.k + 1);
      RemainingStep(v.lens, count, s, work[c.k + 1]);
      HuffStep(v.lens, s, work[c.k + 1]);
      OrderOfPlaces(v.lens, s, work[c.k + 1]);
    }
  }

  ghost predicate HasNext(v: View, work: seq<int>, count: seq<int>, c: Cursor) {
    && c.k + 1 < |work| && Used(v.lens, work[c.k + 1]) && 0 <= c.len < |count| && 0 <= c.huff
    && (count[c.len] - 1 == 0 <==> v.lens[work[c.k + 1]] != c.len)
    && Huff(v.lens, work[c.k + 1]) == Next(c.huff, c.len) && c.len <= v.lens[work[c.k + 1]] <= Longest(v.lens)
  }

  /** The same table serves the next symbol too. */
  lemma {:induction false} SameTable(v: View, work: seq<int>, t: seq<Entry>, count: seq<int>, c: Cursor, len: int,
      huff: int, count1: seq<int>)
    requires PastSymbol(v, work, t, count, c) && c.k + 1 < Offs(v.lens, 16) && |count| == 16 && 0 <= c.len < 16
    requires HasNext(v, work, count, c) && len == v.lens[work[c.k + 1]] && huff == Huff(v.lens, work[c.k + 1])
    requires len > v.root ==> huff % Pow2(v.root) == c.low
    requires count1 == count[c.len := count[c.len] - 1]
    ensures AtSymbol(v, work, t, count1, c.(k := c.k + 1, len := len, huff := huff))
  {
    hide Pow2, Huff, Remaining, Place, Offs, Count, NotOver, Entered;
    PlaceOf(v, work, c.k);
    PlaceOf(v, work, c.k + 1);
    RemainingStep(v.lens, count, work[c.k], work[c.k + 1]);
    PowPositive(v.root);
    if len > v.root { assert InTail(v, c.k, c.low, work[c.k + 1]); }
    forall u | InTail(v, c.k + 1, c.low, u) ensures v.lens[u] <= v.root + c.curr { assert InTail(v, c.k, c.low, u); }
  }

  /** No symbol so far begins like the next one, which needs a new sub-table. */
  lemma {:induction false} NewGroup(v: View, work: seq<int>, t: seq<Entry>, count: seq<int>, c: Cursor)
    requires PastSymbol(v, work, t, count, c) && c.k + 1 < Offs(v.lens, 16) && HasNext(v, work, count, c)
    requires v.lens[work[c.k + 1]] > v.root && RootIndex(v, work[c.k + 1]) != c.low
    ensures forall j :: 0 <= j <= c.k && v.lens[work[j]] > v.root ==>
      RootIndex(v, work[j]) != RootIndex(v, work[c.k + 1])
    ensures Pow2(15 - v.root) > 0 && Pos(v.lens, work[c.k + 1]) % Pow2(15 - v.root) == 0
  {
    hide Pow2, Huff, Remaining, Place, Offs, Count, NotOver, Current, Entered, TailFits, Leading, Pos;
    var s, t1 := work[c.k], work[c.k + 1];
    PlaceOf(v, work, c.k);
    PlaceOf(v, work, c.k + 1);
    if v.lens[s] > v.root { SameLeading(v.lens, s, t1, v.root); }
    NewLeading(v.lens, s, t1, v.root);
    forall j | 0 <= j <= c.k && v.lens[work[j]] > v.root ensures RootIndex(v, work[j]) != RootIndex(v, t1) {
      PlaceOf(v, work, j);
      if j < c.k { OrderOfPlaces(v.lens, work[j], s); }
      LeadingMonotone(v.lens, work[j], s, v.root);
      LeadingMonotone(v.lens, s, t1, v.root);
      SameLeading(v.lens, work[j], t1, v.root);
    }
  }

  lemma TailOfGroup(v: View, work: seq<int>, k: nat, bits: nat)
    requires Sorted(v.lens, work) && k < Offs(v.lens, 16) && GroupFits(v, work[k], bits)
    ensures TailFits(v, k, RootIndex(v, work[k]), bits)
  {
    hide Pow2, Huff, Place, Offs;
    forall t | InTail(v, k, RootIndex(v, work[k]), t)
        ensures v.lens[t] <= v.root + bits { assert SameGroup(v, work[k], t); }
  }

  /** With the link written, the new sub-table serves the next symbol. */
  lemma {:induction false} NewTable(v: View, work: seq<int>, t: seq<Entry>, count: seq<int>, c: Cursor, len: int,
      huff: int, at: nat, bits: nat, low: int, t1: seq<Entry>, count1: seq<int>)
    requires PastSymbol(v, work, t, count, c) && c.k + 1 < Offs(v.lens, 16) && |count| == 16 && 0 <= c.len < 16
    requires HasNext(v, work, count, c) && len == v.lens[work[c.k + 1]] && huff == Huff(v.lens, work[c.k + 1])
    requires len > v.root && low == huff % Pow2(v.root) != c.low && at == c.next + Pow2(c.curr)
    requires 1 <= bits < 16 && len <= v.root + bits && GroupFits(v, work[c.k + 1], bits)
    requires at + Pow2(bits) <= |t| && 0 <= low < |t| && t1 == t[low := Entry(bits, v.root, at)]
    requires count1 == count[c.len := count[c.len] - 1]
    ensures AtSymbol(v, work, t1, count1, Cursor(c.k + 1, len, huff, at, bits, v.root, low))
  {
    hide Pow2, Huff, Remaining, Place, Offs, Count, NotOver, Current, Entered, TailFits;
    PlaceOf(v, work, c.k);
    PlaceOf(v, work, c.k + 1);
    NewGroup(v, work, t, count, c);
    OpenTable(v, work, t, c.k + 1, c.next, c.curr, c.drop, c.low, bits, t1);
    RemainingStep(v.lens, count, work[c.k], work[c.k + 1]);
    TailOfGroup(v, work, c.k + 1, bits);
  }

  // ---- room ----

  /** Room for the table: the constants for the two large codes, the root table for the code of
      the lengths, which has no sub-tables. */
  ghost predicate HasRoom(kind: Kind, lens: seq<int>, bits: nat, room: int) {
    match kind
    case LENS => room >= ENOUGH_LENS
    case DISTS => room >= ENOUGH_DISTS
    case CODES => 1 <= bits <= 15 && (forall s :: 0 <= s < |lens| ==> lens[s] <= bits) && room >= Pow2(bits)
  }

  /** The table fits so far. */
  ghost predicate RoomFor(v: View, room: int, used: nat) {
    && (v.kind == LENS ==> room >= ENOUGH_LENS) && (v.kind == DISTS ==> room >= ENOUGH_DISTS)
    && (v.kind == CODES ==> Longest(v.lens) <= v.root) && used <= room && !TooLarge(v.kind, used)
  }

  lemma CodesNeverTooLarge(kind: Kind, used: nat)
    ensures kind == CODES ==> !TooLarge(kind, used)
  {
  }

  lemma OpenFits(v: View, room: int, used0: nat, used: nat, len: int)
    requires RoomFor(v, room, used0) && !TooLarge(v.kind, used) && v.root < len <= Longest(v.lens)
    ensures RoomFor(v, room, used)
  {
  }

  /** Opens the sub-table for the next symbol: its size, and the link to it. */
  method Open(table: array<Entry>, start: nat, count: array<int>, len: nat, huff: nat, root: nat, max: nat, used0: nat,
      kind: Kind, c: Cursor, ghost v: View, ghost work: seq<int>, ghost counts: seq<int>)
    returns (ok: bool, c1: Cursor, used: nat)
    requires start <= table.Length && root == v.root && kind == v.kind && max == Longest(v.lens)
        && RoomFor(v, table.Length - start, used0)
    requires PastSymbol(v, work, table[start..], counts, c) && c.k + 1 < Offs(v.lens, 16) && HasNext(v, work, counts, c)
    requires |counts| == 16 && 0 <= c.len < 16 && count[..] == counts[c.len := counts[c.len] - 1]
        && used0 == c.next + Pow2(c.curr)
    requires len == v.lens[work[c.k + 1]] > root && huff == Huff(v.lens, work[c.k + 1]) && huff % Pow2(root) != c.low
        && Saves(v, work, c)
    modifies table
    ensures forall i :: 0 <= i < table.Length && !(start <= i < start + used0) ==> table[i] == old(table[i])
    ensures !ok ==> kind != CODES && root < max && TooLarge(kind, used) && (Complete(v.lens) ==> Bounded(v, used))
    ensures ok ==> used0 <= used == c1.next + Pow2(c1.curr) && c1.k == c.k + 1 && RoomFor(v, table.Length - start, used)
    ensures ok ==> AtSymbol(v, work, table[start..], count[..], c1) && Saves(v, work, c1)
  {
    hide *;
    ghost var t := table[start..];
    OpenReady(v, work, t, counts, c, count[..]);
    var curr := SubtableBits(count, len, root, max, v, work[c.k + 1]);
    used := used0 + Pow2(curr);
    OpenSaves(v, work, t, counts, c, curr, huff);
    c1 := c;
    ok := !TooLarge(kind, used);
    CodesNeverTooLarge(kind, used);
    if !ok { return; }
    OpenFits(v, table.Length - start, used0, used, len);
    RoomBound(v, table.Length - start, used);
    LowIndex(v, t, c, huff);
    var low := huff % Pow2(root);
    table[start + low] := Entry(curr, root, used0);
    assert table[start..] == t[low := Entry(curr, root, used0)];
    NewTable(v, work, t, counts, c, len, huff, used0, curr, low, table[start..], count[..]);
    c1 := Cursor(c.k + 1, len, huff, used0, curr, root, low);
  }

  /** The tables so far take few entries for their codes, when the code is complete. */
  ghost predicate Saves(v: View, work: seq<int>, c: Cursor) {
    Complete(v.lens) ==> Thrifty(v, work, c.k, c.next, c.curr, c.drop, c.low)
  }

  lemma {:induction false} OpenSaves(v: View, work: seq<int>, t: seq<Entry>, count: seq<int>, c: Cursor, bits: nat,
      huff: nat)
    requires PastSymbol(v, work, t, count, c) && c.k + 1 < Offs(v.lens, 16) && Saves(v, work, c)
    requires Used(v.lens, work[c.k + 1]) && v.lens[work[c.k + 1]] > v.root && v.root + bits <= 15
    requires huff == Huff(v.lens, work[c.k + 1]) && huff % Pow2(v.root) != c.low
    requires Complete(v.lens) ==> GroupFilled(v, work[c.k + 1], bits)
    ensures Complete(v.lens) ==> Bounded(v, c.next + Pow2(c.curr) + Pow2(bits))
    ensures Saves(v, work, Cursor(c.k + 1, v.lens[work[c.k + 1]], huff, c.next + Pow2(c.curr), bits, v.root,
        huff % Pow2(v.root)))
  {
    hide Pow2, Huff, Remaining, Place, Offs, Count, NotOver, Complete, Current, Entered, TailFits, Lean, GroupFilled,
        Bounded, Thrifty;
    if Complete(v.lens) {
      PlaceOf(v, work, c.k + 1);
      StaysLean(v, work, c.k, c.next, c.curr, c.drop, c.low, work[c.k + 1]);
      OpenBounded(v, c.k + 1, work[c.k + 1], c.next + Pow2(c.curr), bits);
      NowOpened(v, work, c.k + 1, c.next + Pow2(c.curr), bits);
    }
  }

  lemma NowOpened(v: View, work: seq<int>, k: nat, next: nat, bits: nat)
    requires k < |work| && Used(v.lens, work[k]) && v.root >= 1
    requires Lean(v, k, work[k], next) && GroupFilled(v, work[k], bits)
    ensures Thrifty(v, work, k, next, bits, v.root, RootIndex(v, work[k]))
  {
    hide Lean, GroupFilled, Huff, Pow2;
    assert OpenedAt(v, work, k, next, bits, RootIndex(v, work[k]));
  }

  lemma StillSaves(v: View, work: seq<int>, c: Cursor, c1: Cursor)
    requires Saves(v, work, c) && c1.k == c.k + 1 && c1.next == c.next && c1.curr == c.curr && c1.drop == c.drop
        && c1.low == c.low
    ensures Saves(v, work, c1)
  {
    hide OpenedAt, Complete;
  }

  lemma RoomBound(v: View, room: int, used: nat)
    requires RoomFor(v, room, used)
    ensures used <= room
  {
  }

  lemma {:induction false} LowIndex(v: View, t: seq<Entry>, c: Cursor, huff: nat)
    requires Current(v, t, c.next, c.curr, c.drop, c.low) && ValidView(v)
    ensures 0 <= huff % Pow2(v.root) < Pow2(v.root) <= c.next + Pow2(c.curr) <= |t| && Pow2(v.root) > 0
  {
    hide Pow2, NotOver;
    PowPositive(v.root);
    PowPositive(c.curr);
  }

  lemma RoomNotTooLarge(v: View, room: int, used: nat)
    requires RoomFor(v, room, used)
    ensures !TooLarge(v.kind, used)
  {
  }

  lemma {:induction false} OpenReady(v: View, work: seq<int>, t: seq<Entry>, count: seq<int>, c: Cursor,
      count1: seq<int>)
    requires PastSymbol(v, work, t, count, c) && c.k + 1 < Offs(v.lens, 16) && HasNext(v, work, count, c)
    requires v.lens[work[c.k + 1]] > v.root && Huff(v.lens, work[c.k + 1]) % Pow2(v.root) != c.low
    requires |count| == 16 && 0 <= c.len < 16 && count1 == count[c.len := count[c.len] - 1]
    ensures ValidView(v) && Remaining(v.lens, count1, work[c.k + 1]) && Current(v, t, c.next, c.curr, c.drop, c.low)
    ensures 1 <= v.root && c.k + 1 < |work| && Used(v.lens, work[c.k + 1]) && v.lens[work[c.k + 1]] <= Longest(v.lens)
    ensures Pow2(15 - v.root) > 0 && Pos(v.lens, work[c.k + 1]) % Pow2(15 - v.root) == 0
  {
    hide Pow2, Huff, Remaining, Place, Offs, Count, NotOver, Current, Entered, TailFits, Pos;
    PlaceOf(v, work, c.k);
    PlaceOf(v, work, c.k + 1);
    NewGroup(v, work, t, count, c);
    RemainingStep(v.lens, count, work[c.k], work[c.k + 1]);
  }

  // ---- the end of the loop ----

  /** Every symbol that occurs is in the table. */
  ghost predicate AllPlaced(v: View, t: seq<Entry>) {
    forall s :: Used(v.lens, s) ==> Placed(v, t, s)
  }

  lemma SubInPrefix(v: View, t: seq<Entry>, t1: seq<Entry>, s: int, e: Entry)
    requires InSub(v, t, s, e) && |t1| <= |t| && t1 == t[..|t1|] && e.val + Pow2(e.op) <= |t1|
    ensures InSub(v, t1, s, e)
  {
    hide Huff, Pow2;
  }

  lemma {:induction false} PlacedInPrefix(v: View, t: seq<Entry>, t1: seq<Entry>, s: int, next: nat, curr: nat,
      drop: nat, low: int)
    requires ValidView(v) && Used(v.lens, s) && Entered(v, t, s, next, drop, low)
        && Current(v, t, next, curr, drop, low)
    requires next + Pow2(curr) <= |t1| <= |t| && t1 == t[..|t1|]
    ensures Placed(v, t1, s)
  {
    hide Huff, NotOver, Pow2;
    PowPositive(v.root);
    PowPositive(curr);
    if v.lens[s] > v.root { SubInPrefix(v, t, t1, s, t[RootIndex(v, s)]); }
  }

  /** All symbols are entered, and within the part of the array that is used. */
  lemma {:induction false} AllEntered(v: View, work: seq<int>, t: seq<Entry>, count: seq<int>, c: Cursor)
    requires PastSymbol(v, work, t, count, c) && c.k + 1 == Offs(v.lens, 16)
    ensures c.next + Pow2(c.curr) <= |t| && AllPlaced(v, t[..c.next + Pow2(c.curr)])
  {
    hide Pow2, Huff, Remaining, Place, Offs, Count, NotOver, TailFits, Placed;
    forall s | Used(v.lens, s) ensures Placed(v, t[..c.next + Pow2(c.curr)], s) {
      PlaceRange(v.lens, s);
      assert Entered(v, t, work[Place(v.lens, s)], c.next, c.drop, c.low);
      PlacedInPrefix(v, t, t[..c.next + Pow2(c.curr)], s, c.next, c.curr, c.drop, c.low);
    }
  }

  /** A set of lengths that is accepted though it is incomplete: one code of one bit. */
  ghost predicate SingleCode(lens: seq<int>) {
    Longest(lens) == 1 && Count(lens, 1) == 1
  }

  lemma {:induction false} SingleHuff(lens: seq<int>, s: int)
    requires Used(lens, s) && lens[s] == 1 && Count(lens, 1) == 1
    ensures Huff(lens, s) == 0 && Next(0, 1) == 1
  {
    hide Count;
    CountPrefix(lens, s, 1);
  }

  /** After the last symbol the code has come round to zero, unless it is the single one. */
  lemma {:induction false} Ending(v: View, work: seq<int>, t: seq<Entry>, count: seq<int>, c: Cursor)
    requires PastSymbol(v, work, t, count, c) && c.k + 1 == Offs(v.lens, 16)
    requires Complete(v.lens) || (SingleCode(v.lens) && v.root == 1)
    ensures 0 <= c.huff && 0 < c.len
    ensures Complete(v.lens) ==> Next(c.huff, c.len) == 0
    ensures !Complete(v.lens) ==> Next(c.huff, c.len) == 1 && c.next == 0 && c.curr == 1 && c.len == 1 && c.drop == 0
  {
    hide Huff, Remaining, Offs, Place, Count, NotOver, Pow2, Entered, TailFits, Complete;
    var s := work[c.k];
    PlaceOf(v, work, c.k);
    if Complete(v.lens) {
      HuffEnds(v.lens, s);
    } else {
      LongestBounds(v.lens);
      assert v.lens[s] == 1;
      SingleHuff(v.lens, s);
    }
  }

  // ---- inflate_table ----

  /** A finished table: every symbol is placed, and the one entry that no symbol of an
      incomplete code fills is marked invalid. */
  ghost predicate Finished(v: View, t: seq<Entry>) {
    && AllPlaced(v, t)
    && (Complete(v.lens) || (SingleCode(v.lens) && v.root == 1 && |t| == 2 && t[1] == Entry(64, 1, 0)))
  }

  lemma {:induction false} FinishComplete(v: View, t: seq<Entry>)
    requires AllPlaced(v, t) && Complete(v.lens)
    ensures Finished(v, t)
  {
  }

  /** Writing the invalid entry leaves the single symbol placed. */
  lemma {:induction false} FinishSingle(v: View, t: seq<Entry>, t1: seq<Entry>)
    requires ValidView(v) && AllPlaced(v, t) && SingleCode(v.lens) && v.root == 1 && |t| == 2
        && t1 == t[1 := Entry(64, 1, 0)]
    ensures Finished(v, t1)
  {
    hide Complete, Count, NotOver, Longest;
    LongestBounds(v.lens);
    forall s | Used(v.lens, s) ensures Placed(v, t1, s) {
      assert v.lens[s] == 1;
      SingleHuff(v.lens, s);
      assert Placed(v, t, s);
    }
  }

  lemma StartRoom(v: View, room: int)
    requires RoomFor(v, room, 0) && !TooLarge(v.kind, Pow2(v.root)) && (v.kind == CODES ==> Pow2(v.root) <= room)
    ensures RoomFor(v, room, Pow2(v.root)) && 0 < Pow2(v.root) <= room
  {
    PowPositive(v.root);
  }

  lemma StartSaves(v: View, work: seq<int>, c: Cursor)
    requires c.next == 0 && c.curr == v.root && c.drop == 0
    ensures Saves(v, work, c)
  {
    hide Complete;
  }

  lemma PowOne()
    ensures Pow2(1) == 2 && Pow2(0) == 1
  {
  }

  lemma NextParts(v: View, work: seq<int>, count: seq<int>, c: Cursor)
    requires HasNext(v, work, count, c)
    ensures c.k + 1 < |work| && 0 <= work[c.k + 1] < |v.lens| && 0 <= c.len < |count| && 0 <= c.huff
    ensures v.lens[work[c.k + 1]] >= 0 && (count[c.len] - 1 == 0 <==> v.lens[work[c.k + 1]] != c.len)
    ensures Huff(v.lens, work[c.k + 1]) == Next(c.huff, c.len)
  {
    hide Huff, Next, Longest;
  }

  /** Symbols whose first bits need no new table: the short ones, and those of the group of
      the current one. */
  lemma LowOrShort(v: View, c: Cursor, len: int, huff: nat)
    requires !(len > v.root && huff % Pow2(v.root) != c.low)
    ensures len > v.root ==> huff % Pow2(v.root) == c.low
  {
  }

  datatype Outcome = Done | Again | Full

  /** One round of the big loop. */
  method Round(kind: Kind, lens: seq<int>, table: array<Entry>, start: nat, root: nat, work: array<int>,
      count: array<int>, max: nat, c: Cursor, used: nat, ghost v: View)
    returns (outcome: Outcome, c1: Cursor, used1: nat)
    requires v == View(kind, lens, root) && max == Longest(lens) && work != count && start <= table.Length
    requires AtSymbol(v, work[..], table[start..], count[..], c) && used == c.next + Pow2(c.curr)
        && RoomFor(v, table.Length - start, used) && Saves(v, work[..], c)
    modifies table, count
    ensures forall i :: 0 <= i < table.Length && !(start <= i < start + used) ==> table[i] == old(table[i])
    ensures outcome == Full ==>
      kind != CODES && root < max && TooLarge(kind, used1) && (Complete(lens) ==> Bounded(v, used1))
    ensures outcome == Done ==>
      && used1 == used && c1 == c && c.k + 1 == Offs(lens, 16)
      && PastSymbol(v, work[..], table[start..], old(count[..]), c)
    ensures outcome == Again ==>
      used <= used1 == c1.next + Pow2(c1.curr) && c1.k == c.k + 1 && RoomFor(v, table.Length - start, used1)
    ensures outcome == Again ==> AtSymbol(v, work[..], table[start..], count[..], c1) && Saves(v, work[..], c1)
  {
    hide *;
    ghost var sorted, counts := work[..], count[..];
    c1, used1 := c, used;
    EnterReady(v, sorted, table[start..], counts, c);
    Enter(table, start, kind, work[c.k], c, v, sorted, counts);
    assert work[..] == sorted && count[..] == counts;
    Goes(v, sorted, table[start..], counts, c);
    var huff := Increment(c.huff, c.len);
    count[c.len] := count[c.len] - 1;
    assert count[..] == counts[c.len := counts[c.len] - 1] && work[..] == sorted;
    if count[c.len] == 0 && c.len == max { return Done, c1, used1; }
    NextParts(v, sorted, counts, c);
    var len: nat := c.len;
    if count[c.len] == 0 { len := lens[work[c.k + 1]]; }
    if len > root && huff % Pow2(root) != c.low {
      var ok;
      ok, c1, used1 := Open(table, start, count, len, huff, root, max, used, kind, c, v, sorted, counts);
      outcome := if ok then Again else Full;
    } else {
      LowOrShort(v, c, len, huff);
      SameTable(v, sorted, table[start..], counts, c, len, huff, count[..]);
      c1 := c.(k := c.k + 1, len := len, huff := huff);
      StillSaves(v, sorted, c, c1);
      outcome := Again;
    }
    assert work[..] == sorted;
  }

  lemma CursorBelow(v: View, work: seq<int>, t: seq<Entry>, count: seq<int>, c: Cursor)
    requires AtSymbol(v, work, t, count, c)
    ensures c.k < Offs(v.lens, 16)
  {
    hide Offs;
  }

  /** Fills the entry that an incomplete code leaves. */
  method FinishTable(table: array<Entry>, start: nat, used: nat, c: Cursor, huff: nat, ghost v: View)
    requires start + used <= table.Length && used == c.next + Pow2(c.curr) && ValidView(v)
        && AllPlaced(v, table[start..start + used])
    requires Complete(v.lens) ==> huff == 0
    requires !Complete(v.lens) ==>
      SingleCode(v.lens) && v.root == 1 && huff == 1 && c.next == 0 && c.curr == 1 && c.len == 1 && c.drop == 0
    modifies table
    ensures Finished(v, table[start..start + used])
    ensures forall i :: 0 <= i < table.Length && !(start <= i < start + used) ==> table[i] == old(table[i])
  {
    hide *;
    PowOne();
    ghost var t := table[start..start + used];
    if huff != 0 {
      table[start + c.next + huff] := Entry(64, c.len - c.drop, 0);
      assert table[start..start + used] == t[1 := Entry(64, 1, 0)];
      FinishSingle(v, t, table[start..start + used]);
    } else {
      FinishComplete(v, t);
    }
  }

  /** The big loop and what follows it. */
  method FillTables(kind: Kind, lens: seq<int>, table: array<Entry>, start: nat, root: nat, work: array<int>,
      count: array<int>, max: nat, min: nat)
    returns (ret: int, used: nat)
    requires ValidView(View(kind, lens, root)) && Sorted(lens, work[..]) && Counted(lens, count[..])
        && count.Length == 16 && work != count
    requires max == Longest(lens) && 1 <= min <= root && min <= 15 && count[min] > 0 && forall l :: 1 <= l < min ==>
      count[l] == 0
    requires start <= table.Length && RoomFor(View(kind, lens, root), table.Length - start, 0)
    requires kind == CODES ==> Pow2(root) <= table.Length - start
    requires Complete(lens) || (SingleCode(lens) && root == 1)
    modifies table, count
    ensures ret == 0 || (ret == 1 && kind != CODES && TooLarge(kind, used))
    ensures ret == 1 ==>
      used == Pow2(root) || (root < max && (Complete(lens) ==> Bounded(View(kind, lens, root), used)))
    ensures ret == 0 ==> !TooLarge(kind, used)
    ensures ret == 0 ==> start + used <= table.Length && Finished(View(kind, lens, root), table[start..start + used])
    ensures forall i :: 0 <= i < start ==> table[i] == old(table[i])
    ensures ret == 0 ==> forall i :: start + used <= i < table.Length ==> table[i] == old(table[i])
  {
    hide *;
    ghost var v := View(kind, lens, root);
    ghost var sorted := work[..];
    used := Pow2(root);
    CodesNeverTooLarge(kind, used);
    if TooLarge(kind, used) { return 1, used; }
    StartRoom(v, table.Length - start);
    Begin(v, sorted, table[start..], count[..], min);
    var c := Cursor(0, min, 0, 0, root, 0, -1);
    StartSaves(v, sorted, c);
    ghost var counts := count[..];
    while true
      invariant work[..] == sorted && AtSymbol(v, sorted, table[start..], count[..], c)
      invariant used == c.next + Pow2(c.curr) && RoomFor(v, table.Length - start, used)
          && Saves(v, sorted, c)
      invariant forall i :: 0 <= i < table.Length && !(start <= i < start + used) ==> table[i] == old(table[i])
      decreases Offs(lens, 16) - c.k
    {
      counts := count[..];
      CursorBelow(v, sorted, table[start..], count[..], c);
      var outcome;
      outcome, c, used := Round(kind, lens, table, start, root, work, count, max, c, used, v);
      assert work[..] == sorted;
      if outcome == Done { break; }
      if outcome == Full { return 1, used; }
    }
    AllEntered(v, sorted, table[start..], counts, c);
    Ending(v, sorted, table[start..], counts, c);
    Goes(v, sorted, table[start..], counts, c);
    RoomNotTooLarge(v, table.Length - start, used);
    assert table[start..][..used] == table[start..start + used];
    var huff := Increment(c.huff, c.len);
    FinishTable(table, start, used, c, huff, v);
    ret := 0;
  }

  /** The sets of lengths that are refused: over-subscribed ones, and incomplete ones other
      than a single code of one bit in the two large codes. */
  ghost predicate Refused(kind: Kind, lens: seq<int>) {
    Longest(lens) > 0 && (!NotOver(lens) || (!Complete(lens) && (kind == CODES || Longest(lens) != 1)))
  }

  /** An incomplete code that is not refused is the single one. */
  lemma {:induction false} MustBeSingle(lens: seq<int>)
    requires CodeLens(lens) && NotOver(lens) && !Complete(lens) && Longest(lens) == 1
    ensures SingleCode(lens)
  {
    hide Count, Longest, Pow2;
    LongestBounds(lens);
    LongerTakesNothing(lens, 2);
    SpaceNext(lens, 1);
    PowSucc(14);
    if Count(lens, 1) >= 2 { MonotoneTimes(2, Count(lens, 1), Pow2(14)); }
  }

  /** inflate_table. The result 0 means a finished table between start and next, -1 a refused
      set of lengths, 1 that the table would be larger than the constants allow. */
  method InflateTable(kind: Kind, lens: seq<int>, table: array<Entry>, start: nat, bits: nat, work: array<int>)
    returns (ret: int, next: nat, root: nat)
    requires CodeLens(lens) && |lens| <= Symbols(kind) && |lens| <= work.Length && bits <= 15
    requires start <= table.Length && HasRoom(kind, lens, bits, table.Length - start)
    modifies table, work
    ensures ret == -1 || ret == 0 || (ret == 1 && kind != CODES)
    ensures ret == -1 <==> Refused(kind, lens)
    ensures ret == 1 ==> 0 < Longest(lens) && !Enough(kind, |lens|, bits)
    ensures ret == 1 ==> root < Longest(lens) || TooLarge(kind, Pow2(root))
    ensures 0 < Longest(lens) <= bits ==> root == Longest(lens)
    ensures ret == 0 ==> !TooLarge(kind, if next >= start then next - start else 0)
    ensures ret == 0 ==> start <= next <= table.Length
    ensures ret == 0 && Longest(lens) > 0 ==> 1 <= root <= 15 && Finished(View(kind, lens, root), table[start..next])
    ensures ret == 0 && Longest(lens) == 0 ==> root == 1 && table[start..next] == [Entry(64, 1, 0), Entry(64, 1, 0)]
    ensures forall i :: 0 <= i < start ==> table[i] == old(table[i])
    ensures ret == 0 ==> forall i :: next <= i < table.Length ==> table[i] == old(table[i])
  {
    hide *;
    next := start;
    var count := CountLengths(lens);
    root := bits;
    var max, min := Extremes(lens, count);
    LongestBounds(lens);
    if root > max { root := max; }
    if max == 0 {
      TwoEntries(kind, lens, bits, table.Length - start);
      table[start] := Entry(64, 1, 0);
      table[start + 1] := Entry(64, 1, 0);
      NeverRefusedEmpty(kind, lens);
      return 0, start + 2, 1;
    }
    if root < min { root := min; }
    var left := CheckLeft(lens, count);
    RefusedMeans(kind, lens);
    if left < 0 { return -1, next, root; }
    if left > 0 && (kind == CODES || max != 1) { return -1, next, root; }
    if left > 0 { MustBeSingle(lens); }
    ghost var counts := count[..];
    SortSymbols(lens, count, work);
    assert count[..] == counts;
    StartReady(kind, lens, bits, root, max, min, table.Length - start);
    var used;
    ret, used := FillTables(kind, lens, table, start, root, work, count, max, min);
    next := start + used;
    if ret == 1 && Enough(kind, |lens|, bits) { NeverFull(kind, lens, counts, bits, root, max, min, used); }
  }

  /** The constants suffice: with the sizes they were found for, the table is never too large. */
  lemma {:induction false} NeverFull(kind: Kind, lens: seq<int>, count: seq<int>, bits: nat, root: nat, max: nat,
      min: nat, used: nat)
    requires ValidView(View(kind, lens, root)) && Counted(lens, count) && Enough(kind, |lens|, bits)
        && (Complete(lens) || SingleCode(lens))
    requires max == Longest(lens) && 1 <= min <= max <= 15 && forall l :: 1 <= l < min ==> count[l] == 0
    requires root == if (if bits > max then max else bits) < min then min else if bits > max then max else bits
    requires used == Pow2(root) || (root < max && (Complete(lens) ==> Bounded(View(kind, lens, root), used)))
    ensures !TooLarge(kind, used)
  {
    hide Complete, Longest, Pow2, NotOver, Bounded, Count;
    if Complete(lens) { SomeAreShort(kind, lens, bits, min); }
    if used == Pow2(root) {
      PowMonotone(root, bits);
      FourteenBits();
    } else {
      ConstantsSuffice(View(kind, lens, root), used);
    }
  }

  lemma TwoEntries(kind: Kind, lens: seq<int>, bits: nat, room: int)
    requires HasRoom(kind, lens, bits, room)
    ensures room >= 2 && !TooLarge(kind, 2)
  {
    if kind == CODES { PowAtLeastTwo(bits); }
  }

  lemma PowAtLeastTwo(n: nat)
    requires n >= 1
    ensures Pow2(n) >= 2
  {
  }

  lemma NeverRefusedEmpty(kind: Kind, lens: seq<int>)
    requires Longest(lens) == 0
    ensures !Refused(kind, lens)
  {
  }

  lemma {:induction false} RefusedMeans(kind: Kind, lens: seq<int>)
    ensures Refused(kind, lens) <==>
      Longest(lens) > 0 && (!NotOver(lens) || (!Complete(lens) && (kind == CODES || Longest(lens) != 1)))
    ensures Complete(lens) ==> NotOver(lens)
  {
    hide Longest, Space;
  }

  lemma {:induction false} StartReady(kind: Kind, lens: seq<int>, bits: nat, root: nat, max: nat, min: nat, room: int)
    requires CodeLens(lens) && NotOver(lens) && |lens| <= Symbols(kind) && HasRoom(kind, lens, bits, room) && bits <= 15
    requires max == Longest(lens) && 1 <= min <= max <= 15
    requires root == if (if bits > max then max else bits) < min then min else if bits > max then max else bits
    ensures ValidView(View(kind, lens, root)) && min <= root && (max == 1 ==> root == 1)
    ensures RoomFor(View(kind, lens, root), room, 0) && (kind == CODES ==> Pow2(root) <= room)
  {
    hide NotOver, Pow2, Longest;
    if kind == CODES {
      LongestReached(lens);
      PowMonotone(root, bits);
    }
  }

  // ---- what the tables do ----

  /** Looking up any bits that begin with the code of a symbol gives that symbol and the
      length of its code. */
  lemma {:induction false} LookupDecodes(v: View, t: seq<Entry>, s: int, w: nat)
    requires ValidView(v) && Finished(v, t) && Used(v.lens, s) && w % Pow2(v.lens[s]) == Huff(v.lens, s)
    ensures s < Symbols(v.kind) && Finds(t, v.root, w, SymEntry(v.kind, s, v.lens[s]))
  {
    hide Huff, Pow2, NotOver, Complete, SingleCode, Placed, Finds;
    PlacedIsFound(v, t, s, w);
  }

  /** A complete code leaves no bits undecoded: every lookup gives some symbol. */
  lemma {:induction false} LookupTotal(v: View, t: seq<Entry>, w: nat) returns (s: int)
    requires ValidView(v) && Finished(v, t) && Complete(v.lens)
    ensures Used(v.lens, s) && s < Symbols(v.kind) && w % Pow2(v.lens[s]) == Huff(v.lens, s)
    ensures Finds(t, v.root, w, SymEntry(v.kind, s, v.lens[s]))
  {
    hide Huff, Pow2, NotOver, Complete, SingleCode, Finds;
    s := EveryWord(v.lens, w);
    LookupDecodes(v, t, s, w);
  }

  /** The single code: zero is its symbol, one is the invalid entry. */
  lemma {:induction false} LookupSingle(v: View, t: seq<Entry>, w: nat)
    requires ValidView(v) && Finished(v, t) && !Complete(v.lens) && w % 2 == 1
    ensures Finds(t, v.root, w, Entry(64, 1, 0))
  {
    hide Huff, NotOver, Complete, SingleCode;
    PowOne();
  }
}
