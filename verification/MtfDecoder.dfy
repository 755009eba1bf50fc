/** The decompressor's symbol loop: runs and positions back into the byte column,
    with the byte tally, over the two-level list. */
module MtfDecoder {
  import opened Wrappers
  import opened Bytes
  import opened MoveToFront
  import opened ZeroRuns
  import opened Counting

  datatype Status = Ok | DataError

  ghost function Mapped(values: seq<Byte>, seqToUnseq: seq<Byte>): (b: seq<Byte>)
    requires |seqToUnseq| == 256
    ensures |b| == |values| && forall i :: 0 <= i < |values| ==> b[i] == seqToUnseq[values[i]]
  {
    seq(|values|, i requires 0 <= i < |values| => seqToUnseq[values[i]])
  }

  ghost predicate Tally(unzftab: seq<int>, b: seq<Byte>) {
    |unzftab| == 256 && forall c :: 0 <= c < 256 ==> unzftab[c] == Count(b, c)
  }

  lemma {:induction false} TallyAdd(unzftab: seq<int>, b: seq<Byte>, x: Byte, unzftab1: seq<int>)
    requires Tally(unzftab, b) && |unzftab1| == 256
    requires unzftab1 == unzftab[x := unzftab[x] + 1]
    ensures Tally(unzftab1, b + [x])
  {
    assert (b + [x])[..|b|] == b;
  }

  lemma {:induction false} TallyRun(unzftab: seq<int>, b: seq<Byte>, x: Byte, n: nat)
    requires Tally(unzftab, b)
    ensures Tally(unzftab[x := unzftab[x] + n], b + Rep(x, n))
  {
    if n == 0 {
      assert b + Rep(x, n) == b;
      assert unzftab[x := unzftab[x] + n] == unzftab;
    } else {
      TallyRun(unzftab, b, x, n - 1);
      TallyAdd(unzftab[x := unzftab[x] + (n - 1)], b + Rep(x, n - 1), x, unzftab[x := unzftab[x] + n]);
      assert b + Rep(x, n) == b + Rep(x, n - 1) + [x];
    }
  }

  /** The byte array being filled: `tt` or, for the low-memory decoder, `ll16`. */
  class Column {
    const smallDecompress: bool
    const tt: array<Word>
    const ll16: array<Half>
    var nblock: int

    ghost predicate Holds(b: seq<Byte>)
      reads this, tt, ll16
    {
      && nblock == |b|
      && (smallDecompress ==> |b| <= ll16.Length && forall i :: 0 <= i < |b| ==> ll16[i] == b[i])
      && (!smallDecompress ==> |b| <= tt.Length && forall i :: 0 <= i < |b| ==> tt[i] == b[i])
    }

    constructor (small: bool, tt: array<Word>, ll16: array<Half>)
      ensures this.smallDecompress == small && this.tt == tt && this.ll16 == ll16 && Holds([])
    {
      smallDecompress, nblock := small, 0;
      this.tt, this.ll16 := tt, ll16;
    }

    function Capacity(): nat {
      if smallDecompress then ll16.Length else tt.Length
    }

    method Put(uc: Byte, ghost b: seq<Byte>)
      requires Holds(b) && nblock < Capacity()
      modifies this, tt, ll16
      ensures Holds(b + [uc])
    {
      if smallDecompress { ll16[nblock] := uc; } else { tt[nblock] := uc; }
      nblock := nblock + 1;
    }

    /** es copies of uc, refusing to run past the block. */
    method PutRun(uc: Byte, count: int, nblockMAX: int, ghost b: seq<Byte>) returns (st: Status)
      requires Holds(b) && nblockMAX <= Capacity() && 0 <= count && |b| <= nblockMAX
      modifies this, tt, ll16
      ensures st.Ok? <==> |b| + count <= nblockMAX
      ensures st.Ok? ==> Holds(b + Rep(uc, count))
    {
      var es := count;
      assert b + Rep(uc, 0) == b;
      while es > 0
        invariant 0 <= es <= count && Holds(b + Rep(uc, count - es))
        invariant nblock <= nblockMAX
      {
        if nblock >= nblockMAX { return DataError; }
        assert b + Rep(uc, count - es) + [uc] == b + Rep(uc, count - es + 1);
        Put(uc, b + Rep(uc, count - es));
        es := es - 1;
      }
      return Ok;
    }
  }

  /** A reading whose pending run, if any, is already in the byte column. */
  ghost predicate Caught(r: Option<Reading>, list: seq<Byte>, bytes: seq<Byte>, seqToUnseq: seq<Byte>)
    requires |seqToUnseq| == 256
  {
    r.Some? && Sound(r.value) && r.value.list == list && bytes == Mapped(Flushed(r.value), seqToUnseq)
  }

  /** Symbols of one block: everything but the last is below the end marker. */
  ghost predicate BlockSymbols(syms: seq<int>, eob: int) {
    && 2 <= eob <= 257 && syms != [] && syms[|syms| - 1] == eob
    && forall k :: 0 <= k < |syms| - 1 ==> 0 <= syms[k] < eob
  }

  ghost function Upto(syms: seq<int>, eob: int, pos: int, start: seq<Byte>, max: int): (r: Option<Reading>)
    requires BlockSymbols(syms, eob) && 0 <= pos < |syms| && |start| == 256
    ensures r.Some? ==> Sound(r.value)
  {
    After(syms[..pos], start, max)
  }

  lemma {:induction false} UptoStep(syms: seq<int>, eob: int, pos: int, start: seq<Byte>, max: int)
    requires BlockSymbols(syms, eob) && 0 <= pos < |syms| - 1 && |start| == 256
    ensures 0 <= syms[pos] <= 256
    ensures Upto(syms, eob, pos + 1, start, max) ==
            var r := Upto(syms, eob, pos, start, max); if r.None? then None else Step(r.value, syms[pos], max)
  {
    AfterAppend(syms[..pos], syms[pos], start, max);
    assert syms[..pos + 1] == syms[..pos] + [syms[pos]];
  }

  ghost function Meaning(syms: seq<int>, eob: int, start: seq<Byte>, max: int): Option<seq<Byte>>
    requires BlockSymbols(syms, eob) && |start| == 256
  {
    Decode(syms[..|syms| - 1], start, max)
  }

  lemma {:induction false} FailedStaysFailed(syms: seq<int>, eob: int, pos: int, start: seq<Byte>, max: int)
    requires BlockSymbols(syms, eob) && 0 <= pos < |syms| && |start| == 256
    requires Upto(syms, eob, pos, start, max).None?
    ensures Meaning(syms, eob, start, max).None?
  {
    var all := syms[..|syms| - 1];
    assert all[..pos] == syms[..pos];
    AfterPrefix(all, pos, start, max);
  }

  /** A run too long for the block makes the whole block invalid: either the next
      symbol or the end marker finds it out. */
  lemma {:induction false} OverfullFails(syms: seq<int>, eob: int, pos: int, start: seq<Byte>, max: int)
    requires BlockSymbols(syms, eob) && 0 <= pos < |syms| && |start| == 256
    requires var r := Upto(syms, eob, pos, start, max); r.Some? && |r.value.out| + r.value.pending > max
    requires syms[pos] > RUNB
    ensures Meaning(syms, eob, start, max).None?
  {
    if pos < |syms| - 1 {
      UptoStep(syms, eob, pos, start, max);
      FailedStaysFailed(syms, eob, pos + 1, start, max);
    }
  }

  /** The do-while over RUNA and RUNB digits. */
  method ReadRun(syms: seq<int>, eob: int, pos0: int, ghost start: seq<Byte>, ghost max: int)
    returns (st: Status, es: int, pos: int)
    requires BlockSymbols(syms, eob) && 0 <= pos0 < |syms| - 1 && syms[pos0] <= RUNB && |start| == 256
    requires var r := Upto(syms, eob, pos0, start, max); r.Some? && r.value.weight == 1
    ensures pos0 <= pos < |syms|
    ensures st.DataError? ==> Meaning(syms, eob, start, max).None?
    ensures st.Ok? ==> pos0 < pos && syms[pos] > RUNB && 0 < es
    ensures st.Ok? ==> var r := Upto(syms, eob, pos0, start, max).value;
            var t := Upto(syms, eob, pos, start, max);
            t.Some? && t.value.out == r.out && t.value.list == r.list && t.value.pending == es
  {
    hide Upto, Meaning;
    ghost var r := Upto(syms, eob, pos0, start, max).value;
    pos, es := pos0, -1;
    var N := 1;
    while true
      invariant pos0 <= pos < |syms| - 1 && syms[pos] <= RUNB
      invariant 1 <= N && -1 <= es && es + 1 <= 2 * (N - 1)
      invariant Upto(syms, eob, pos, start, max) == Some(r.(weight := N, pending := es + 1))
      decreases |syms| - pos
    {
      UptoStep(syms, eob, pos, start, max);
      if N >= RUN_LIMIT {
        FailedStaysFailed(syms, eob, pos + 1, start, max);
        return DataError, es, pos;
      }
      if syms[pos] == RUNA { es := es + (0 + 1) * N; } else { es := es + (1 + 1) * N; }
      N := N * 2;
      pos := pos + 1;
      if !(syms[pos] == RUNA || syms[pos] == RUNB) { break; }
    }
    es := es + 1;
    st := Ok;
  }

  lemma MappedRun(r: Reading, list: seq<Byte>, bytes: seq<Byte>, es: nat, t: Reading, seqToUnseq: seq<Byte>)
    requires |seqToUnseq| == 256 && Caught(Some(r), list, bytes, seqToUnseq) && r.pending == 0
    requires t.out == r.out && t.list == r.list && t.pending == es && Sound(t)
    ensures Caught(Some(t), list, bytes + Rep(seqToUnseq[list[0]], es), seqToUnseq)
    ensures |bytes| == |t.out|
  {
  }

  lemma MappedLiteral(r: Reading, list: seq<Byte>, bytes: seq<Byte>, s: int, max: int, seqToUnseq: seq<Byte>)
    requires |seqToUnseq| == 256 && Caught(Some(r), list, bytes, seqToUnseq) && RUNB < s <= 256
    requires |r.out| + r.pending + 1 <= max
    ensures Caught(Step(r, s, max), ToFront(list, s - 1), bytes + [seqToUnseq[list[s - 1]]], seqToUnseq)
    ensures Step(r, s, max).value.weight == 1
  {
  }

  /** No two of the decoder's arrays are the same memory. */
  ghost predicate Separate(mtf: TwoLevelList, col: Column, unzftab: array<int>, seqToUnseq: array<Byte>) {
    && unzftab != mtf.mtfbase && unzftab as object != mtf.mtfa && unzftab as object != col.tt
    && unzftab as object != col.ll16 && seqToUnseq != mtf.mtfa && seqToUnseq as object != mtf.mtfbase
    && seqToUnseq as object != col.tt && seqToUnseq as object != col.ll16 && seqToUnseq as object != unzftab
    && col.tt as object != mtf.mtfa && col.tt as object != mtf.mtfbase
    && col.ll16 as object != mtf.mtfa && col.ll16 as object != mtf.mtfbase
  }

  /** A whole run: count it, then write it. */
  method OutputRun(col: Column, unzftab: array<int>, uc: Byte, es: int, nblockMAX: int, ghost b: seq<Byte>)
    returns (st: Status)
    requires col.Holds(b) && Tally(unzftab[..], b) && nblockMAX <= col.Capacity() && |b| <= nblockMAX && 0 <= es
    requires unzftab as object != col.tt && unzftab as object != col.ll16
    modifies col, col.tt, col.ll16, unzftab
    ensures st.Ok? <==> |b| + es <= nblockMAX
    ensures st.Ok? ==> col.Holds(b + Rep(uc, es)) && Tally(unzftab[..], b + Rep(uc, es))
  {
    TallyRun(unzftab[..], b, uc, es);
    ghost var before := unzftab[..];
    unzftab[uc] := unzftab[uc] + es;
    assert unzftab[..] == before[uc := before[uc] + es];
    st := col.PutRun(uc, es, nblockMAX, b);
  }

  method OutputByte(col: Column, unzftab: array<int>, uc: Byte, ghost b: seq<Byte>)
    requires col.Holds(b) && Tally(unzftab[..], b) && |b| < col.Capacity()
    requires unzftab as object != col.tt && unzftab as object != col.ll16
    modifies col, col.tt, col.ll16, unzftab
    ensures col.Holds(b + [uc]) && Tally(unzftab[..], b + [uc])
  {
    ghost var before := unzftab[..];
    unzftab[uc] := unzftab[uc] + 1;
    TallyAdd(before, b, uc, unzftab[..]);
    col.Put(uc, b);
  }

  /** No run is open when a run digit comes next: ReadRun takes all of them. */
  ghost predicate Idle(r: Option<Reading>, next: int) {
    r.Some? && (next <= RUNB ==> r.value.weight == 1 && r.value.pending == 0)
  }

  /** The state between symbols: everything read so far is in the arrays. */
  ghost predicate Synced(syms: seq<int>, eob: int, pos: int, start: seq<Byte>, max: int, mtf: TwoLevelList, col: Column,
      unzftab: array<int>, map_: seq<Byte>, bytes: seq<Byte>)
    reads mtf.mtfa, mtf.mtfbase, col, col.tt, col.ll16, unzftab
  {
    && BlockSymbols(syms, eob) && 0 <= pos < |syms| && |start| == 256 && |map_| == 256
    && mtf.Valid() && col.Holds(bytes) && Tally(unzftab[..], bytes)
    && |bytes| <= max <= col.Capacity()
    && Caught(Upto(syms, eob, pos, start, max), mtf.Contents(), bytes, map_)
    && Idle(Upto(syms, eob, pos, start, max), syms[pos])
  }

  method RunBranch(syms: seq<int>, eob: int, pos0: int, ghost start: seq<Byte>, nblockMAX: int, mtf: TwoLevelList,
      col: Column, unzftab: array<int>, seqToUnseq: array<Byte>, ghost bytes0: seq<Byte>)
    returns (st: Status, pos: int, ghost bytes: seq<Byte>)
    requires Separate(mtf, col, unzftab, seqToUnseq)
    requires Synced(syms, eob, pos0, start, nblockMAX, mtf, col, unzftab, seqToUnseq[..], bytes0)
    requires syms[pos0] <= RUNB
    modifies col, col.tt, col.ll16, unzftab
    ensures st.DataError? ==> Meaning(syms, eob, start, nblockMAX).None?
    ensures st.Ok? ==> pos0 < pos && Synced(syms, eob, pos, start, nblockMAX, mtf, col, unzftab, seqToUnseq[..], bytes)
  {
    hide Upto, Meaning, Tally, Caught;
    ghost var map_, list := seqToUnseq[..], mtf.Contents();
    ghost var r := Upto(syms, eob, pos0, start, nblockMAX).value;
    var es;
    st, es, pos := ReadRun(syms, eob, pos0, start, nblockMAX);
    bytes := bytes0;
    if st.DataError? { return; }
    var uc := mtf.Front();
    uc := seqToUnseq[uc];
    MappedRun(r, list, bytes, es, Upto(syms, eob, pos, start, nblockMAX).value, map_);
    st := OutputRun(col, unzftab, uc, es, nblockMAX, bytes);
    if st.DataError? { OverfullFails(syms, eob, pos, start, nblockMAX); return; }
    bytes := bytes + Rep(uc, es);
  }

  method PositionBranch(syms: seq<int>, eob: int, pos: int, ghost start: seq<Byte>, nblockMAX: int, mtf: TwoLevelList,
      col: Column, unzftab: array<int>, seqToUnseq: array<Byte>, ghost bytes0: seq<Byte>)
    returns (st: Status, ghost bytes: seq<Byte>)
    requires Separate(mtf, col, unzftab, seqToUnseq)
    requires Synced(syms, eob, pos, start, nblockMAX, mtf, col, unzftab, seqToUnseq[..], bytes0)
    requires RUNB < syms[pos] < eob
    modifies mtf.mtfa, mtf.mtfbase, col, col.tt, col.ll16, unzftab
    ensures st.DataError? ==> Meaning(syms, eob, start, nblockMAX).None?
    ensures st.Ok? ==> Synced(syms, eob, pos + 1, start, nblockMAX, mtf, col, unzftab, seqToUnseq[..], bytes)
  {
    hide Upto, Meaning, Tally, Caught;
    ghost var map_, list := seqToUnseq[..], mtf.Contents();
    bytes := bytes0;
    CaughtSize(Upto(syms, eob, pos, start, nblockMAX), list, bytes, map_);
    UptoStep(syms, eob, pos, start, nblockMAX);
    if col.nblock >= nblockMAX {
      FailedStaysFailed(syms, eob, pos + 1, start, nblockMAX);
      return DataError, bytes;
    }
    MappedLiteral(Upto(syms, eob, pos, start, nblockMAX).value, list, bytes, syms[pos], nblockMAX, map_);
    var uc := mtf.Take(syms[pos] - 1);
    OutputByte(col, unzftab, seqToUnseq[uc], bytes);
    bytes := bytes + [seqToUnseq[uc]];
    st := Ok;
  }

  /** The symbol loop of one block.  It succeeds exactly when the specification does,
      and then the column and its tally are those of the specified bytes. */
  method DecodeSymbols(syms: seq<int>, eob: int, mtf: TwoLevelList, col: Column, unzftab: array<int>,
      seqToUnseq: array<Byte>, nblockMAX: int)
    returns (st: Status, ghost bytes: seq<Byte>)
    requires BlockSymbols(syms, eob) && mtf.Valid() && col.Holds([]) && Separate(mtf, col, unzftab, seqToUnseq)
    requires 0 <= nblockMAX <= col.Capacity() && seqToUnseq.Length == 256
    requires Tally(unzftab[..], [])
    modifies mtf.mtfa, mtf.mtfbase, col, col.tt, col.ll16, unzftab
    ensures st.Ok? <==> old(Meaning(syms, eob, mtf.Contents(), nblockMAX)).Some?
    ensures st.Ok? ==> bytes == Mapped(old(Meaning(syms, eob, mtf.Contents(), nblockMAX)).value, seqToUnseq[..])
    ensures st.Ok? ==> col.Holds(bytes) && Tally(unzftab[..], bytes)
  {
    hide Upto, Meaning, Tally, Caught, Idle;
    ghost var start, map_ := mtf.Contents(), seqToUnseq[..];
    bytes := [];
    UptoStart(syms, eob, start, nblockMAX, map_);
    var pos := 0;
    while true
      invariant seqToUnseq[..] == map_ && 0 <= pos < |syms|
      invariant Synced(syms, eob, pos, start, nblockMAX, mtf, col, unzftab, map_, bytes)
      decreases |syms| - pos
    {
      if syms[pos] == eob { break; }
      if syms[pos] == RUNA || syms[pos] == RUNB {
        st, pos, bytes := RunBranch(syms, eob, pos, start, nblockMAX, mtf, col, unzftab, seqToUnseq, bytes);
        if st.DataError? { return; }
      } else {
        st, bytes := PositionBranch(syms, eob, pos, start, nblockMAX, mtf, col, unzftab, seqToUnseq, bytes);
        if st.DataError? { return; }
        pos := pos + 1;
      }
    }
    MeaningAtEnd(syms, eob, pos, start, nblockMAX, mtf.Contents(), bytes, map_);
    st := Ok;
  }

  lemma {:induction false} UptoStart(syms: seq<int>, eob: int, start: seq<Byte>, max: int, map_: seq<Byte>)
    requires BlockSymbols(syms, eob) && |start| == 256 && |map_| == 256
    ensures Caught(Upto(syms, eob, 0, start, max), start, [], map_)
    ensures Idle(Upto(syms, eob, 0, start, max), syms[0])
  {
  }

  lemma CaughtSize(r: Option<Reading>, list: seq<Byte>, bytes: seq<Byte>, map_: seq<Byte>)
    requires |map_| == 256 && Caught(r, list, bytes, map_)
    ensures r.Some? && Sound(r.value) && r.value.list == list && |bytes| == |r.value.out| + r.value.pending
  {
  }

  lemma {:induction false} MeaningAtEnd(syms: seq<int>, eob: int, pos: int, start: seq<Byte>, max: int, list: seq<Byte>,
      bytes: seq<Byte>, map_: seq<Byte>)
    requires BlockSymbols(syms, eob) && 0 <= pos < |syms| && syms[pos] == eob && |start| == 256 && |map_| == 256
    requires Caught(Upto(syms, eob, pos, start, max), list, bytes, map_) && |bytes| <= max
    ensures var m := Meaning(syms, eob, start, max); m.Some? && bytes == Mapped(m.value, map_)
  {
    assert pos == |syms| - 1;
  }
}
