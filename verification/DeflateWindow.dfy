/** The window and hash table of deflate as an object: INSERT_STRING, read_buf and fill_window. */
module DeflateWindow {
  import opened Bytes
  import opened HashChains
  import opened LongestMatch
  import opened DeflateState

  class Matcher {
    const wSize: nat
    const hashBits: nat
    const window: array<Byte>
    const head: array<int>
    const prev: array<int>
    var insH: Hash
    var strstart: int
    var lookahead: int
    var insert: int
    var matchStart: int
    var blockStart: int
    var highWater: int
    var availIn: seq<Byte>
    ghost var text: seq<Byte>
    ghost var base: int
    ghost var ins: set<int>
    ghost var top: int

    ghost predicate Fixed()
      reads this`highWater
    {
      && 512 <= wSize <= 32768 && window.Length == 2 * wSize && prev.Length == wSize
          && hashBits >= 8 && head.Length == HashSize(hashBits) && head != prev
      && window as object != head && window as object != prev && 0 <= highWater <= 2 * wSize
    }

    ghost predicate Data()
      reads this`text, this`base, this`strstart, this`lookahead, window
    {
      DataOk(window[..], text, base, strstart, lookahead, wSize)
    }

    /** The chains; top is the position filed last. */
    ghost predicate Table()
      reads this`strstart, this`lookahead, this`top, this`ins, window, head, prev
    {
      0 <= strstart && 0 <= lookahead && strstart + lookahead <= window.Length
          && (top < 0 || top + 2 < strstart + lookahead)
      && Chains(hashBits, window[..strstart + lookahead], head[..], prev[..], ins, wSize, top)
    }

    ghost predicate Hash()
      reads this`insH, this`strstart, this`lookahead, this`insert, window
    {
      HashOk(hashBits, insH, window[..], strstart, lookahead, insert)
    }

    /** Between two rounds of the matcher. */
    ghost predicate Valid()
      reads this`highWater, this`text, this`base, this`strstart, this`lookahead, this`top, this`ins, this`insH,
          this`insert, window, head, prev
    {
      Fixed() && Data() && 0 <= insert <= 2 && insert <= strstart && Table() && top < strstart - insert && Hash()
    }

    /** lm_init */
    constructor (wSize: nat, hashBits: nat, input: seq<Byte>)
      requires 512 <= wSize <= 32768 && hashBits >= 8
      ensures Valid() && fresh(window) && fresh(head) && fresh(prev) && this.wSize == wSize
          && this.hashBits == hashBits
      ensures text == [] && base == 0 && strstart == 0 && lookahead == 0 && insert == 0 && blockStart == 0
          && availIn == input && matchStart == 0
    {
      this.wSize, this.hashBits := wSize, hashBits;
      window := new Byte[2 * wSize];
      head := new int[HashSize(hashBits)](_ => 0);
      prev := new int[wSize];
      strstart, lookahead, insert, matchStart, blockStart, highWater := 0, 0, 0, 0, 0, 0;
      insH, availIn := seq(hashBits, _ => false), input;
      text, base, ins, top := [], 0, {}, -1;
    }

    /** Of all positions filed before p with its key q is the last; it is 0 if there is none. */
    ghost predicate LastAlike(p: int, q: int)
      reads this`strstart, this`lookahead, this`ins, window
    {
      && 0 <= p && p + 2 < strstart + lookahead <= window.Length && InData(window[..strstart + lookahead], ins)
      && Latest(hashBits, window[..strstart + lookahead], ins, KeyAt(hashBits, window[..strstart + lookahead], p), p, q)
    }

    /** INSERT_STRING: files position str and returns the former head of its chain. */
    method InsertString(str: int) returns (matchHead: int)
      requires Fixed() && Table() && top < str && 0 <= str && str + 2 < strstart + lookahead
          && Ready(hashBits, insH, window[str], window[str + 1])
      modifies this`insH, this`ins, this`top, head, prev
      ensures Fixed() && Table() && top == str && Ready(hashBits, insH, window[str + 1], window[str + 2])
      ensures LastAlike(str, matchHead) && ins == if str == 0 then old(ins) else old(ins) + {str}
    {
      hide Chains, UpdateHash, Hash3, Start, Latest;
      ghost var w := window[..strstart + lookahead];
      ChainSize(hashBits, w, head[..], prev[..], ins, wSize, top);
      HeadOf(hashBits, w, head[..], prev[..], ins, wSize, top, str);
      ReadyNext(hashBits, window[str], window[str + 1], window[str + 2]);
      Insert(hashBits, w, head[..], prev[..], ins, wSize, top, str);
      ghost var h, p := head[..], prev[..];
      insH := UpdateHash(hashBits, insH, window[str + 2]);
      KeyIs(hashBits, w, str, insH, window[str], window[str + 1], window[str + 2]);
      matchHead := head[Index(hashBits, insH)];
      prev[str % wSize] := matchHead;
      head[Index(hashBits, insH)] := str;
      ins := if str == 0 then ins else ins + {str};
      top := str;
      assert head[..] == h[Index(hashBits, insH) := str] && prev[..] == p[str % wSize := matchHead];
      assert window[..strstart + lookahead] == w;
    }

    lemma SlideSizes()
      requires Fixed() && Data()
      ensures 512 <= wSize && window.Length == 2 * wSize && 0 <= strstart && 0 <= lookahead
          && strstart + lookahead <= window.Length
      ensures head != prev && window as object != head && window as object != prev && MIN_MATCH == 3
    {
      hide DataOk;
      DataBounds(window[..], text, base, strstart, lookahead, wSize);
    }

    /** The arrays after sliding, from what they held before. */
    lemma SlideIsValid(w: seq<Byte>, h: seq<int>, p: seq<int>)
      requires Fixed() && |w| == window.Length && DataOk(w, text, base, strstart, lookahead, wSize) && wSize <= strstart
      requires 0 <= lookahead && strstart + lookahead <= |w|
          && window[..strstart + lookahead - wSize] == w[wSize..strstart + lookahead]
      requires head[..] == SlidAll(h, wSize) && prev[..] == SlidAll(p, wSize)
      requires (top < 0 || top + 2 < strstart + lookahead)
          && Chains(hashBits, w[..strstart + lookahead], h, p, ins, wSize, top)
      ensures DataOk(window[..], text, base + wSize, strstart - wSize, lookahead, wSize)
      ensures Chains(hashBits, window[..strstart + lookahead - wSize], head[..], prev[..], SlidSet(ins, wSize), wSize,
          top - wSize)
      ensures top - wSize < 0 || top - wSize + 2 < strstart - wSize + lookahead
    {
      hide Chains, DataOk, SlidAll, SlidSet;
      SlideKeeps(hashBits, w, text, base, strstart, lookahead, wSize, window[..], h, p, ins, top);
      assert window[..][..strstart + lookahead - wSize] == window[..strstart + lookahead - wSize];
    }

    /** The window slides down by its size, and with it every position. */
    method SlideWindow()
      requires Fixed() && Data() && wSize <= strstart && Table()
      modifies this`strstart, this`matchStart, this`blockStart, this`base, this`ins, this`top, window, head, prev
      ensures Fixed() && Data() && Table() && top == old(top) - wSize && ins == SlidSet(old(ins), wSize)
      ensures strstart == old(strstart) - wSize && base == old(base) + wSize && matchStart == old(matchStart) - wSize
      ensures blockStart == old(blockStart) - wSize
    {
      hide *;
      SlideSizes();
      TableParts();
      ghost var w, h, p := window[..], head[..], prev[..];
      MoveDown(window, wSize, strstart + lookahead - wSize);
      SlideEntries(head, wSize);
      SlideEntries(prev, wSize);
      SlideIsValid(w, h, p);
      base, ins, top := base + wSize, SlidSet(ins, wSize), top - wSize;
      matchStart := matchStart - wSize;
      strstart := strstart - wSize;
      blockStart := blockStart - wSize;
      SlidIsHere();
    }

    /** The chains and the data, taken out of their predicates and put back. */
    lemma TableParts()
      requires Data() && Table()
      ensures DataOk(window[..], text, base, strstart, lookahead, wSize)
      ensures 0 <= strstart && 0 <= lookahead && strstart + lookahead <= window.Length
      ensures (top < 0 || top + 2 < strstart + lookahead)
          && Chains(hashBits, window[..strstart + lookahead], head[..], prev[..], ins, wSize, top)
    {
      hide Chains, DataOk;
    }

    lemma SlidIsHere()
      requires DataOk(window[..], text, base, strstart, lookahead, wSize)
      requires 0 <= strstart && 0 <= lookahead && strstart + lookahead <= window.Length
      requires (top < 0 || top + 2 < strstart + lookahead)
          && Chains(hashBits, window[..strstart + lookahead], head[..], prev[..], ins, wSize, top)
      ensures Data() && Table()
    {
      hide Chains, DataOk;
    }

    /** read_buf: as much of the input as fits. */
    method ReadBuf(size: nat) returns (n: nat)
      requires Fixed() && Data() && strstart + lookahead + size <= window.Length && Table()
      modifies this`lookahead, this`availIn, this`text, window
      ensures Fixed() && Data() && Table()
      ensures n == (if |old(availIn)| <= size then |old(availIn)| else size) && lookahead == old(lookahead) + n
      ensures text == old(text) + old(availIn)[..n] && availIn == old(availIn)[n..]
    {
      hide Chains, DataOk;
      n := if |availIn| <= size then |availIn| else size;
      ghost var w := window[..];
      DataBounds(w, text, base, strstart, lookahead, wSize);
      CopyIn(window, strstart + lookahead, availIn[..n]);
      ReadKeepsAll(w, window[..], availIn[..n]);
      text := text + availIn[..n];
      lookahead := lookahead + n;
      availIn := availIn[n..];
    }

    /** New bytes behind the data leave the data and the chains as they are. */
    lemma ReadKeepsAll(w: seq<Byte>, w1: seq<Byte>, more: seq<Byte>)
      requires DataOk(w, text, base, strstart, lookahead, wSize) && |w1| == |w| && strstart + lookahead + |more| <= |w|
      requires 0 <= strstart && 0 <= lookahead && w1[..strstart + lookahead] == w[..strstart + lookahead]
      requires w1[strstart + lookahead..strstart + lookahead + |more|] == more
      requires Chains(hashBits, w[..strstart + lookahead], head[..], prev[..], ins, wSize, top)
      ensures DataOk(w1, text + more, base, strstart, lookahead + |more|, wSize)
      ensures Chains(hashBits, w1[..strstart + lookahead + |more|], head[..], prev[..], ins, wSize, top)
    {
      hide *;
      ReadKeeps(w, text, base, strstart, lookahead, wSize, w1, more);
      MoreData(hashBits, w[..strstart + lookahead], head[..], prev[..], ins, wSize, top,
          w1[..strstart + lookahead + |more|]);
    }

    /** The strings that could not be inserted for want of bytes; afterwards the running hash
        is right again. */
    method Rehash()
      requires Fixed() && Data() && 0 <= insert <= 2 && insert <= strstart && Table() && top < strstart - insert
      modifies this`insH, this`insert, this`ins, this`top, head, prev
      ensures Valid()
      ensures FiledOn(old(ins), ins, strstart - old(insert), strstart - insert, strstart + lookahead)
      ensures insert <= old(insert) && (insert < old(insert) ==> insert + lookahead >= 2)
    {
      hide *;
      SlideSizes();
      NoneFiled(ins, strstart - insert, strstart + lookahead);
      ghost var first, end, ins0 := strstart - insert, strstart + lookahead, ins;
      if lookahead + insert >= MIN_MATCH {
        var str := strstart - insert;
        ReadyFresh(hashBits, window[str], window[str + 1]);
        insH := Start(hashBits, window[str]);
        insH := UpdateHash(hashBits, insH, window[str + 1]);
        while insert != 0
          invariant Fixed() && Data() && 0 <= insert <= 2 && str == strstart - insert && 0 <= str && Table()
              && top < str
          invariant lookahead + insert >= MIN_MATCH && Ready(hashBits, insH, window[str], window[str + 1])
          invariant FiledOn(ins0, ins, first, str, end) && (str > first ==> insert + lookahead >= 2)
          decreases insert
        {
          ghost var was := ins;
          var _ := InsertString(str);
          OneFiled(ins0, was, ins, first, str, end);
          str := str + 1;
          insert := insert - 1;
          if lookahead + insert < MIN_MATCH { break; }
        }
      }
      RehashDone();
    }

    lemma RehashDone()
      requires Fixed() && Data() && 0 <= insert <= 2 && insert <= strstart && Table() && top < strstart - insert
      requires lookahead >= MIN_MATCH ==>
        insert == 0 && strstart + 1 < window.Length && Ready(hashBits, insH, window[strstart], window[strstart + 1])
      ensures Valid()
    {
      hide Fixed, Data, Table, Ready;
    }

    /** Zeros behind the data, for searches that look beyond it; the data stay. */
    method ZeroAhead()
      requires Fixed() && 0 <= strstart && 0 <= lookahead && strstart + lookahead <= window.Length
      modifies this`highWater, window
      ensures Fixed() && window[..strstart + lookahead] == old(window[..strstart + lookahead])
    {
      var curr := strstart + lookahead;
      if highWater < window.Length {
        if highWater < curr {
          var init := if window.Length - curr > MAX_MATCH then MAX_MATCH else window.Length - curr;
          Zero(window, curr, init);
          highWater := curr + init;
        } else if highWater < curr + MAX_MATCH {
          var init := curr + MAX_MATCH - highWater;
          if init > window.Length - highWater { init := window.Length - highWater; }
          ghost var w, hw := window[..], highWater;
          Zero(window, highWater, init);
          assert window[..curr] == window[..hw][..curr] == w[..hw][..curr];
          highWater := highWater + init;
        }
      }
    }

    /** Everything that keeps its place in the text. */
    ghost function Place(): (int, int, int)
      reads this
    {
      (base + strstart, strstart - matchStart, strstart - blockStart)
    }

    /** The window slides when too little of it is left; `more` is what is free behind the data. */
    method MakeRoom() returns (more: nat)
      requires Valid() && lookahead < MIN_LOOKAHEAD
      modifies this`strstart, this`matchStart, this`blockStart, this`base, this`ins, this`top, window, head, prev
      ensures Valid() && Place() == old(Place()) && (old(strstart) >= 1 ==> strstart >= 1)
      ensures strstart + lookahead + more == window.Length && strstart + MIN_LOOKAHEAD <= window.Length && more > 0
      ensures old(base) <= base && KeptOn(old(ins), old(base), ins, base, 0, 0, 0)
      ensures base == old(base) || strstart >= MaxDist(wSize)
    {
      hide Table, DataOk, HashOk, Chains, InData, KeptOn, SlidSet;
      DataBounds(window[..], text, base, strstart, lookahead, wSize);
      more := window.Length - lookahead - strstart;
      AllInside();
      KeptHere(ins, base);
      if strstart >= wSize + MaxDist(wSize) {
        KeptSlid(ins, base, wSize);
        ghost var w := window[..];
        SlideWindow();
        HashSlides(hashBits, insH, w, window[..], text, base - wSize, strstart + wSize, lookahead, wSize, insert);
        more := more + wSize;
      }
    }

    lemma AllInside()
      requires Table()
      ensures forall p :: p in ins ==> p > 0
    {
      hide KeyAt, Latest, LinkOk;
    }

    /** What reading and rehashing need of Valid. */
    lemma ReadyToRead()
      requires Valid()
      ensures Fixed() && Data() && Table() && 0 <= insert <= 2 && insert <= strstart && top < strstart - insert
    {
      hide Table, Data, Fixed, Hash;
    }

    /** What filling the window may change. */
    ghost function Here(): Position
      reads this
    {
      Position(base, strstart, strstart - matchStart, strstart - blockStart, lookahead, insert, ins, text, availIn,
        wSize)
    }

    /** One round of fill_window's loop; `stop` when there is no input. */
    method FillOnce() returns (stop: bool)
      requires Valid() && lookahead < MIN_LOOKAHEAD
      modifies this, window, head, prev
      ensures Valid() && Filled(old(Here()), Here()) && strstart + MIN_LOOKAHEAD <= window.Length
      ensures stop ==> availIn == []
      ensures !stop ==> |availIn| < old(|availIn|)
    {
      hide Valid, Fixed, Data, Table, KeptOn, FiledOn;
      ghost var t0, a0 := text, availIn;
      var more := MakeRoom();
      ghost var ins0, insert0 := ins, insert;
      ReadyToRead();
      if availIn == [] {
        KeptNone(old(ins), old(base), ins, base, base + strstart - insert, base + strstart + lookahead);
        return true;
      }
      var n := ReadBuf(more);
      Rehash();
      CutJoined(t0, a0, n);
      KeptFiled(old(ins), old(base), ins0, base, ins, strstart - insert0, strstart - insert, strstart + lookahead);
      stop := false;
    }

    /** fill_window: the input moves into the text and everything keeps its place in the text; the
        table loses what has left the window, and gains the strings that could not be filed before. */
    method FillWindow()
      requires Valid() && lookahead < MIN_LOOKAHEAD
      modifies this, window, head, prev
      ensures Valid() && Filled(old(Here()), Here()) && strstart + MIN_LOOKAHEAD <= window.Length
      ensures lookahead >= MIN_LOOKAHEAD || availIn == []
    {
      hide *;
      ReadyToRead();
      AllInside();
      NothingFilled();
      while true
        invariant Valid() && Filled(old(Here()), Here()) && lookahead < MIN_LOOKAHEAD
        decreases |availIn|
      {
        ghost var here := Here();
        var stop := FillOnce();
        FilledTwice(old(Here()), here, Here());
        if stop || lookahead >= MIN_LOOKAHEAD || availIn == [] { break; }
      }
      FinishFill();
    }

    lemma NothingFilled()
      requires forall p :: p in ins ==> p > 0
      ensures Filled(Here(), Here())
    {
    }

    method FinishFill()
      requires Valid()
      modifies this`highWater, window
      ensures Valid() && strstart + lookahead <= window.Length && Here() == old(Here())
    {
      hide DataOk, HashOk, Chains;
      ghost var w := window[..];
      ValidSizes();
      ZeroAhead();
      SameData(hashBits, w, window[..], text, base, strstart, lookahead, wSize, insH, insert);
    }

    lemma ValidParts()
      requires Valid()
      ensures Fixed() && Data() && 0 <= strstart && strstart + lookahead <= window.Length
    {
      hide Fixed, Table, Hash, Data;
      ValidSizes();
    }

    lemma ValidSizes()
      requires Valid()
      ensures Fixed() && 0 <= strstart && 0 <= lookahead && strstart + lookahead <= window.Length
    {
      hide Table, Hash, DataOk;
      DataBounds(window[..], text, base, strstart, lookahead, wSize);
    }

    // ---- one position after another ----

    /** In the middle of a round: the string at strstart is filed, if it has three bytes. */
    ghost predicate Filed()
      reads this`highWater, this`text, this`base, this`strstart, this`lookahead, this`top, this`ins, this`insH,
          this`insert, window, head, prev
    {
      && Fixed() && Data() && 0 <= insert <= 2 && insert <= strstart && lookahead >= 1
      && Table() && (if lookahead >= MIN_MATCH then top == strstart else top < strstart - insert)
      && (lookahead >= MIN_MATCH ==>
        insert == 0 && strstart + 2 < window.Length
            && Ready(hashBits, insH, window[strstart + 1], window[strstart + 2]))
    }

    lemma FiledParts()
      requires Filed()
      ensures Fixed() && Data()
    {
      hide Fixed, Data, Table, Ready;
    }

    /** Files the string at strstart, when there is enough lookahead. */
    method FileString() returns (hashHead: int)
      requires Valid() && lookahead >= 1
      modifies this`insH, this`ins, this`top, head, prev
      ensures Filed()
      ensures if lookahead >= MIN_MATCH then LastAlike(strstart, hashHead) else hashHead == 0
      ensures FiledOn(old(ins), ins, strstart, strstart + 1, strstart + lookahead)
    {
      hide DataOk, Chains, Ready, LastAlike;
      DataBounds(window[..], text, base, strstart, lookahead, wSize);
      hashHead := 0;
      if lookahead >= MIN_MATCH { hashHead := InsertString(strstart); }
    }

    /** Goes on by one position. */
    method Advance()
      requires Filed()
      modifies this`strstart, this`lookahead
      ensures Valid() && strstart == old(strstart) + 1 && lookahead == old(lookahead) - 1
    {
      hide DataOk, Chains, Ready, UpdateHash;
      ghost var w := window[..strstart + lookahead];
      DataBounds(window[..], text, base, strstart, lookahead, wSize);
      StepKeeps(window[..], text, base, strstart, lookahead, 1, wSize);
      strstart := strstart + 1;
      lookahead := lookahead - 1;
      assert window[..strstart + lookahead] == w;
    }

    /** The other strings of a match, which ends `count` positions further on; the lookahead is
        lowered position by position instead of at once. */
    method Skip(count: nat)
      requires Filed() && count <= lookahead - 1
      modifies this`insH, this`ins, this`top, this`strstart, this`lookahead, head, prev
      ensures Valid() && strstart == old(strstart) + count + 1 && lookahead == old(lookahead) - count - 1
      ensures FiledOn(old(ins), ins, old(strstart) + 1, strstart, strstart + lookahead)
    {
      hide Filed, Valid, FiledOn;
      NoneFiled(ins, strstart + 1, strstart + lookahead);
      for i := 0 to count
        invariant Filed() && strstart == old(strstart) + i && lookahead == old(lookahead) - i
        invariant FiledOn(old(ins), ins, old(strstart) + 1, strstart + 1, strstart + lookahead)
      {
        Advance();
        ghost var was := ins;
        var _ := FileString();
        FiledTwice(old(ins), was, ins, old(strstart) + 1, strstart, strstart + 1, strstart + lookahead);
      }
      Advance();
    }

    /** Passes over a long match without filing its strings; the running hash starts afresh. */
    method Jump(count: nat)
      requires Filed() && count <= lookahead && MIN_MATCH <= lookahead && strstart + count + 1 < window.Length
          && count >= 1
      modifies this`insH, this`strstart, this`lookahead
      ensures Valid() && strstart == old(strstart) + count && lookahead == old(lookahead) - count
    {
      hide DataOk, Chains, Ready, UpdateHash, Start;
      ghost var w := window[..strstart + lookahead];
      DataBounds(window[..], text, base, strstart, lookahead, wSize);
      StepKeeps(window[..], text, base, strstart, lookahead, count, wSize);
      strstart := strstart + count;
      lookahead := lookahead - count;
      assert window[..strstart + lookahead] == w;
      insH := Start(hashBits, window[strstart]);
      insH := UpdateHash(hashBits, insH, window[strstart + 1]);
      ReadyFresh(hashBits, window[strstart], window[strstart + 1]);
    }

    /** At the end of the input the last two strings remain to be filed when more comes. */
    method KeepLast()
      requires Valid() && lookahead == 0
      modifies this`insert
      ensures Valid()
    {
      hide DataOk, Chains, HashOk;
      NoHash(hashBits, insH, window[..], strstart, if strstart < MIN_MATCH - 1 then strstart else MIN_MATCH - 1);
      insert := if strstart < MIN_MATCH - 1 then strstart else MIN_MATCH - 1;
    }

    /** No string is filed any more; and with no lookahead the window is begun
        afresh. */
    method ForgetHistory()
      requires Valid()
      modifies this`strstart, this`blockStart, this`insert, this`base, this`ins, this`top, head
      ensures Valid() && ins == {} && base + strstart == old(base + strstart)
      ensures if lookahead == 0 then strstart == 0 && blockStart == 0
        else strstart == old(strstart) && blockStart == old(blockStart)
    {
      hide DataOk, Chains, HashOk;
      SlideSizes();
      ClearHash(head);
      ins := {};
      if lookahead == 0 {
        EmptyData(window[..], text, base, strstart, wSize);
        base, top := base + strstart, -1;
        strstart, blockStart, insert := 0, 0, 0;
        NoHash(hashBits, insH, window[..], 0, 0);
      }
      NoChains(hashBits, window[..strstart + lookahead], head[..], prev[..], wSize, top);
    }
  }

  lemma NoChains(bits: nat, w: seq<Byte>, head: seq<int>, prev: seq<int>, wSize: nat, top: int)
    requires |head| == HashSize(bits) && 0 < wSize == |prev| && forall h :: 0 <= h < HashSize(bits) ==> head[h] == 0
    ensures Chains(bits, w, head, prev, {}, wSize, top)
  {
  }

  lemma EmptyData(w: seq<Byte>, text: seq<Byte>, base: int, strstart: int, wSize: nat)
    requires DataOk(w, text, base, strstart, 0, wSize)
    ensures DataOk(w, text, base + strstart, 0, 0, wSize)
  {
  }

  lemma CutJoined(t: seq<Byte>, a: seq<Byte>, n: nat)
    requires n <= |a|
    ensures t + a[..n] + a[n..] == t + a && (t + a[..n])[..|t|] == t
  {
    assert a[..n] + a[n..] == a;
  }

  lemma NoHash(bits: nat, h: Hash, w: seq<Byte>, strstart: int, insert: int)
    ensures HashOk(bits, h, w, strstart, 0, insert)
  {
  }

  // ---- filling the window ----

  /** Where the matcher stands; matches and the current block are counted back from strstart. */
  datatype Position = Position(base: int, strstart: int, matchBack: int, blockBack: int, lookahead: int, insert: int,
    ins: set<int>, text: seq<Byte>, availIn: seq<Byte>, wSize: nat)

  /** From one position to another by filling the window; it only moves when enough is left behind. */
  ghost predicate Filled(a: Position, b: Position) {
    && a.base <= b.base && a.base + a.strstart == b.base + b.strstart && (a.strstart >= 1 ==> b.strstart >= 1)
    && a.wSize == b.wSize && (a.base == b.base || b.strstart >= MaxDist(b.wSize))
    && a.matchBack == b.matchBack && a.blockBack == b.blockBack && a.lookahead <= b.lookahead
    && a.text <= b.text && a.text + a.availIn == b.text + b.availIn
    && b.insert <= a.insert && (b.insert < a.insert ==> b.insert + b.lookahead >= 2)
    && KeptOn(a.ins, a.base, b.ins, b.base, a.base + a.strstart - a.insert, b.base + b.strstart - b.insert,
        b.base + b.strstart + b.lookahead)
  }

  lemma {:induction false} FilledTwice(a: Position, b: Position, c: Position)
    requires Filled(a, b) && Filled(b, c)
    ensures Filled(a, c)
  {
    hide KeptOn;
    var place := a.base + a.strstart;
    KeptTwice(a.ins, a.base, b.ins, b.base, c.ins, c.base, place - a.insert, place - b.insert, place - c.insert,
        place + b.lookahead, place + c.lookahead);
  }

  // ---- what the table holds ----

  lemma NoneFiled(ins: set<int>, at: int, end: int)
    ensures FiledOn(ins, ins, at, at, end)
  {
  }

  lemma OneFiled(ins: set<int>, ins1: set<int>, ins2: set<int>, from: int, at: int, end: int)
    requires FiledOn(ins, ins1, from, at, end) && from <= at && at + 2 < end && 0 <= at
    requires ins2 == if at == 0 then ins1 else ins1 + {at}
    ensures FiledOn(ins, ins2, from, at + 1, end)
  {
  }

  lemma FiledTwice(ins: set<int>, ins1: set<int>, ins2: set<int>, from: int, at: int, to: int, end: int)
    requires FiledOn(ins, ins1, from, at, end) && FiledOn(ins1, ins2, at, to, end) && from <= at <= to
    ensures FiledOn(ins, ins2, from, to, end)
  {
  }

  lemma KeptHere(ins: set<int>, base: int)
    requires forall p :: p in ins ==> p > 0
    ensures KeptOn(ins, base, ins, base, 0, 0, 0)
  {
  }

  lemma KeptSlid(ins: set<int>, base: int, wSize: nat)
    ensures KeptOn(ins, base, SlidSet(ins, wSize), base + wSize, 0, 0, 0)
  {
    forall p ensures p in SlidSet(ins, wSize) <==> p > 0 && p + wSize in ins {
      if p > 0 && p + wSize in ins { assert p + wSize - wSize == p; }
    }
  }

  lemma KeptNone(ins: set<int>, base: int, ins1: set<int>, base1: int, at: int, end: int)
    requires KeptOn(ins, base, ins1, base1, 0, 0, 0)
    ensures KeptOn(ins, base, ins1, base1, at, at, end)
  {
  }

  lemma KeptFiled(ins: set<int>, base: int, ins1: set<int>, base1: int, ins2: set<int>, from: int, to: int, end: int)
    requires KeptOn(ins, base, ins1, base1, 0, 0, 0) && FiledOn(ins1, ins2, from, to, end)
    ensures KeptOn(ins, base, ins2, base1, base1 + from, base1 + to, base1 + end)
  {
  }

  lemma KeptTwice(ins: set<int>, base: int, ins1: set<int>, base1: int, ins2: set<int>, base2: int, from: int, at: int,
      to: int, end: int, end2: int)
    requires KeptOn(ins, base, ins1, base1, from, at, end) && KeptOn(ins1, base1, ins2, base2, at, to, end2)
    requires base <= base1 <= base2 && from <= at <= to && end <= end2 && (from < at ==> at + 1 < end)
    ensures KeptOn(ins, base, ins2, base2, from, to, end2)
  {
  }

  lemma StepKeeps(w: seq<Byte>, text: seq<Byte>, base: int, strstart: int, lookahead: int, n: int, wSize: nat)
    requires DataOk(w, text, base, strstart, lookahead, wSize) && 0 <= n <= lookahead
    ensures DataOk(w, text, base, strstart + n, lookahead - n, wSize)
  {
  }

  /** What stands beyond the data does not matter. */
  lemma {:induction false} SameData(bits: nat, w: seq<Byte>, w1: seq<Byte>, text: seq<Byte>, base: int, strstart: int,
      lookahead: int, wSize: nat, h: Hash, insert: int)
    requires DataOk(w, text, base, strstart, lookahead, wSize) && HashOk(bits, h, w, strstart, lookahead, insert)
    requires |w1| == |w| && w1[..strstart + lookahead] == w[..strstart + lookahead]
    ensures DataOk(w1, text, base, strstart, lookahead, wSize) && HashOk(bits, h, w1, strstart, lookahead, insert)
  {
    hide Ready;
    if lookahead >= MIN_MATCH {
      assert w1[strstart] == w1[..strstart + lookahead][strstart] == w[strstart];
      assert w1[strstart + 1] == w1[..strstart + lookahead][strstart + 1] == w[strstart + 1];
    }
  }

  /** Sliding does not disturb the running hash. */
  lemma {:induction false} HashSlides(bits: nat, h: Hash, w: seq<Byte>, w1: seq<Byte>, text: seq<Byte>, base: int,
      strstart: int, lookahead: int, wSize: nat, insert: int)
    requires DataOk(w, text, base, strstart, lookahead, wSize)
        && DataOk(w1, text, base + wSize, strstart - wSize, lookahead, wSize)
    requires HashOk(bits, h, w, strstart, lookahead, insert)
    ensures HashOk(bits, h, w1, strstart - wSize, lookahead, insert)
  {
    hide DataOk, Ready;
    DataSizes(w, text, base, strstart, lookahead, wSize);
    DataSizes(w1, text, base + wSize, strstart - wSize, lookahead, wSize);
    if lookahead >= MIN_MATCH {
      assert w[strstart] == text[base + strstart] == w1[strstart - wSize];
      assert w[strstart + 1] == text[base + strstart + 1] == w1[strstart - wSize + 1];
    }
  }

  /** CLEAR_HASH */
  method ClearHash(head: array<int>)
    modifies head
    ensures forall h :: 0 <= h < head.Length ==> head[h] == 0
  {
    for i := 0 to head.Length
      invariant forall h :: 0 <= h < i ==> head[h] == 0
    {
      head[i] := 0;
    }
  }

  method Zero(window: array<Byte>, at: nat, count: nat)
    requires at + count <= window.Length
    modifies window
    ensures window[..at] == old(window[..at])
  {
    ghost var w := window[..];
    for i := 0 to count
      invariant forall k :: 0 <= k < at ==> window[k] == w[k]
    {
      window[at + i] := 0;
    }
  }

  /** zmemcpy of new input. */
  method CopyIn(window: array<Byte>, at: nat, data: seq<Byte>)
    requires at + |data| <= window.Length
    modifies window
    ensures window[at..at + |data|] == data && window[..at] == old(window[..at])
  {
    ghost var w := window[..];
    for i := 0 to |data|
      invariant forall k :: 0 <= k < at ==> window[k] == w[k]
      invariant forall k :: at <= k < at + i ==> window[k] == data[k - at]
    {
      window[at + i] := data[i];
    }
  }

  lemma {:induction false} ReadKeeps(w: seq<Byte>, text: seq<Byte>, base: int, strstart: int, lookahead: int,
      wSize: nat, w1: seq<Byte>, more: seq<Byte>)
    requires DataOk(w, text, base, strstart, lookahead, wSize) && |w1| == |w| && strstart + lookahead + |more| <= |w|
    requires w1[..strstart + lookahead] == w[..strstart + lookahead]
    requires w1[strstart + lookahead..strstart + lookahead + |more|] == more
    ensures DataOk(w1, text + more, base, strstart, lookahead + |more|, wSize)
    ensures w[..strstart + lookahead] <= w1[..strstart + lookahead + |more|]
  {
    var end := strstart + lookahead;
    assert w1[..end + |more|] == w1[..end] + w1[end..end + |more|];
    assert (text + more)[base..] == text[base..] + more;
  }

  lemma KeyIs(bits: nat, w: seq<Byte>, str: int, h: Hash, a: Byte, b: Byte, c: Byte)
    requires 0 <= str && str + 2 < |w| && w[str] == a && w[str + 1] == b && w[str + 2] == c && h == Hash3(bits, a, b, c)
    ensures KeyAt(bits, w, str) == Index(bits, h)
  {
    hide Hash3;
  }

  /** The head of a chain is the last position with the key of a string that is still to be filed. */
  lemma {:induction false} HeadOf(bits: nat, w: seq<Byte>, head: seq<int>, prev: seq<int>, ins: set<int>, wSize: nat,
      top: int, str: int)
    requires Chains(bits, w, head, prev, ins, wSize, top) && top < str && 0 <= str && str + 2 < |w|
    ensures InData(w, if str == 0 then ins else ins + {str})
    ensures Latest(bits, w, if str == 0 then ins else ins + {str}, KeyAt(bits, w, str), str, head[KeyAt(bits, w, str)])
  {
    hide KeyAt, LinkOk;
  }
}
