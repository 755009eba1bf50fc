/** Unsigned machine integers of the C sources, as ranges of int, and byte strings in pieces. */
module Bytes {
  type Byte = x: int | 0 <= x < 0x100
  type Half = x: int | 0 <= x < 0x1_0000
  type Word = x: int | 0 <= x < 0x1_0000_0000

  /** The bytes that come in pieces, one piece a call. */
  function Join(pieces: seq<seq<Byte>>): seq<Byte> {
    if pieces == [] then [] else pieces[0] + Join(pieces[1..])
  }

  lemma {:induction false} JoinNothing()
    ensures Join([]) == []
  {
  }

  lemma {:induction false} JoinSnoc(pieces: seq<seq<Byte>>, p: seq<Byte>)
    ensures Join(pieces + [p]) == Join(pieces) + p
  {
    if pieces == [] {
      assert ([] + [p])[1..] == [];
      assert p + [] == p;
    } else {
      JoinSnoc(pieces[1..], p);
      assert (pieces + [p])[1..] == pieces[1..] + [p];
    }
  }
}
