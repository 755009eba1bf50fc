/** The symbol alphabet between the sorter and the Huffman stage: move-to-front
    positions, with runs of position 0 written in bijective base 2. */
module ZeroRuns {
  import opened Wrappers
  import opened Bytes
  import opened MoveToFront

  const RUNA: int := 0
  const RUNB: int := 1
  const RUN_LIMIT: int := 2 * 1024 * 1024

  /** What a reader knows after some symbols: values emitted, the current list, and
      the unfinished run with the weight its next digit will carry. */
  datatype Reading = Reading(out: seq<Byte>, list: seq<Byte>, weight: nat, pending: nat)

  function Rep<T>(x: T, n: nat): (s: seq<T>)
    ensures |s| == n && forall i :: 0 <= i < n ==> s[i] == x
  {
    seq(n, _ => x)
  }

  ghost predicate Sound(r: Reading) {
    |r.list| == 256 && (r.pending == 0 <==> r.weight == 1) && r.pending <= 2 * (r.weight - 1)
  }

  /** The values so far, the pending run written out. */
  function Flushed(r: Reading): seq<Byte>
    requires |r.list| == 256
  {
    r.out + Rep(r.list[0], r.pending)
  }

  /** One symbol, with the two checks the decoder makes (decompress.c:390, 404, 421). */
  function Step(r: Reading, s: int, max: int): (t: Option<Reading>)
    requires Sound(r) && 0 <= s <= 256
    ensures t.Some? ==> Sound(t.value)
  {
    if s <= RUNB then
      if r.weight >= RUN_LIMIT then None
      else Some(r.(weight := 2 * r.weight, pending := r.pending + (s + 1) * r.weight))
    else if |r.out| + r.pending + 1 > max then None
    else Some(Reading(Flushed(r) + [r.list[s - 1]], ToFront(r.list, s - 1), 1, 0))
  }

  ghost predicate Symbols(syms: seq<int>) {
    forall k :: 0 <= k < |syms| ==> 0 <= syms[k] <= 256
  }

  function After(syms: seq<int>, list: seq<Byte>, max: int): (t: Option<Reading>)
    requires Symbols(syms) && |list| == 256
    ensures t.Some? ==> Sound(t.value)
  {
    if syms == [] then Some(Reading([], list, 1, 0))
    else
      var r := After(syms[..|syms| - 1], list, max);
      if r.None? then None else Step(r.value, syms[|syms| - 1], max)
  }

  /** Everything the symbols before the end-of-block marker stand for. */
  function Decode(syms: seq<int>, list: seq<Byte>, max: int): Option<seq<Byte>>
    requires Symbols(syms) && |list| == 256
  {
    var r := After(syms, list, max);
    if r.None? || |r.value.out| + r.value.pending > max then None else Some(Flushed(r.value))
  }

  lemma {:induction false} AfterAppend(syms: seq<int>, s: int, list: seq<Byte>, max: int)
    requires Symbols(syms) && 0 <= s <= 256 && |list| == 256
    ensures Symbols(syms + [s])
    ensures After(syms + [s], list, max) ==
            var r := After(syms, list, max); if r.None? then None else Step(r.value, s, max)
  {
    assert (syms + [s])[..|syms|] == syms;
  }

  /** Once a check fails it stays failed. */
  lemma {:induction false} AfterPrefix(syms: seq<int>, k: int, list: seq<Byte>, max: int)
    requires Symbols(syms) && |list| == 256 && 0 <= k <= |syms|
    ensures After(syms[..k], list, max).None? ==> After(syms, list, max).None?
    decreases |syms|
  {
    if k == |syms| {
      assert syms[..k] == syms;
    } else {
      assert syms[..|syms| - 1][..k] == syms[..k];
      AfterPrefix(syms[..|syms| - 1], k, list, max);
    }
  }

  /** More room changes nothing for symbols that already fit. */
  lemma {:induction false} AfterRoomier(syms: seq<int>, list: seq<Byte>, max: int, max1: int)
    requires Symbols(syms) && |list| == 256 && max <= max1 && After(syms, list, max).Some?
    ensures After(syms, list, max1) == After(syms, list, max)
  {
    if syms != [] { AfterRoomier(syms[..|syms| - 1], list, max, max1); }
  }

  // ---- bijective base 2 ----

  /** The digits the encoder writes for a run of k, least significant first. */
  function RunDigits(k: nat): (d: seq<int>)
    ensures forall i :: 0 <= i < |d| ==> d[i] == RUNA || d[i] == RUNB
    ensures k > 0 ==> d != []
  {
    if k == 0 then [] else [(k - 1) % 2] + RunDigits((k - 1) / 2)
  }

  /** Reading the digits of k back adds exactly k, scaled by the starting weight. */
  lemma {:induction false} RunDigitsRead(syms: seq<int>, k: nat, list: seq<Byte>, max: int)
    requires Symbols(syms) && |list| == 256
    requires After(syms, list, max).Some?
    requires After(syms, list, max).value.weight * (k + 1) < RUN_LIMIT * 2
    ensures Symbols(syms + RunDigits(k))
    ensures var r := After(syms, list, max).value; var t := After(syms + RunDigits(k), list, max);
            && t.Some? && t.value.out == r.out && t.value.list == r.list
            && t.value.pending == r.pending + r.weight * k
    decreases k
  {
    var r := After(syms, list, max).value;
    if k == 0 {
      assert syms + RunDigits(k) == syms;
    } else {
      var d, h := (k - 1) % 2, (k - 1) / 2;
      assert k == d + 1 + 2 * h;
      RunArithmetic(r.weight, d, h, k);
      AfterAppend(syms, d, list, max);
      RunDigitsRead(syms + [d], h, list, max);
      assert syms + RunDigits(k) == (syms + [d]) + RunDigits(h);
    }
  }

  lemma RunArithmetic(w: nat, d: int, h: nat, k: nat)
    requires 0 <= d <= 1 && k == d + 1 + 2 * h && w * (k + 1) < RUN_LIMIT * 2
    ensures w < RUN_LIMIT
    ensures (2 * w) * (h + 1) < RUN_LIMIT * 2
    ensures (d + 1) * w + (2 * w) * h == w * k
  {
    assert w * (k + 1) == w * (d + 2) + w * (2 * h);
    assert w * (d + 2) == w * d + 2 * w && w * d >= 0;
    assert w * (2 * h) == (2 * w) * h >= 0;
    assert (d + 1) * w == w * d + w;
    assert (2 * w) * (h + 1) == (2 * w) * h + 2 * w;
  }
}
