/** The three forms of a block, section 3.2.3 of RFC 1951, as bits. */
module BlockForms {
  import opened Bytes
  import opened LsbBits
  import opened Lz77
  import opened DeflateCodes
  import opened LengthCodes
  import opened DeflateBody
  import opened TreeSender
  import opened StoredBlocks
  import opened FixedCodes

  /** The tables of tr_static_init for lengths and distances. */
  datatype StaticTables = StaticTables(baseLength: seq<int>, lengthCode: seq<int>, baseDist: seq<int>,
      distCode: seq<int>)

  ghost predicate TablesOk(t: StaticTables) {
    LengthTables(t.baseLength, t.lengthCode) && DistanceTables(t.baseDist, t.distCode)
  }

  /** What was chosen for a block: the padding and the bytes, the fixed codes, or the lengths of
      two trees with their guards, and the code for those. */
  datatype Form = StoredForm(pad: nat, data: seq<Byte>) | FixedForm | DynamicForm(l: seq<int>, d: seq<int>,
      bll: seq<int>, n: nat)

  function FixedCoder(t: StaticTables): Coder {
    Coder(t.baseLength, t.lengthCode, t.baseDist, t.distCode, FixedLens(), FixedDists())
  }

  function DynamicCoder(t: StaticTables, l: seq<int>, d: seq<int>): Coder {
    Coder(t.baseLength, t.lengthCode, t.baseDist, t.distCode, if l == [] then [] else l[..|l| - 1], if d == [] then []
        else d[..|d| - 1])
  }

  /** Two trees that can be sent. */
  ghost predicate TreesOk(l: seq<int>, d: seq<int>, bll: seq<int>, n: nat) {
    && HeaderReady(l, d, bll, n) && 258 <= |l| <= 287 && 2 <= |d| <= 31 && l[256] != 0
    && Complete(l[..|l| - 1]) && Complete(d[..|d| - 1])
  }

  ghost predicate FormOk(t: StaticTables, f: Form, ts: seq<Token>) {
    match f
    case StoredForm(pad, data) => pad < 8 && |data| <= 0xffff
    case FixedForm => AllCodable(FixedCoder(t), ts)
    case DynamicForm(l, d, bll, n) => TreesOk(l, d, bll, n) && AllCodable(DynamicCoder(t, l, d), ts)
  }

  /** The bits of a block: whether it is the last, its type, and the rest. */
  ghost function FormBits(t: StaticTables, f: Form, ts: seq<Token>, last: bool): seq<bool>
    requires FormOk(t, f, ts)
  {
    match f
    case StoredForm(pad, data) => LowBits(Digit(last), 3) + LowBits(0, pad) + StoredBits(data)
    case FixedForm => LowBits(2 + Digit(last), 3) + BodyBits(FixedCoder(t), ts, 0)
    case DynamicForm(l, d, bll, n) =>
      LowBits(4 + Digit(last), 3) + HeaderBits(l, d, bll, n) + BodyBits(DynamicCoder(t, l, d), ts, 0)
  }
}
