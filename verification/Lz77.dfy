/** Tokens of the deflate format, section 3.2.3 of RFC 1951, and the text they stand for. */
module Lz77 {
  import opened Bytes

  /** A byte, or a match of 3 to 258 bytes some distance back. */
  datatype Token = Literal(b: Byte) | Match(length: int, dist: int)

  predicate ValidToken(t: Token) {
    t.Match? ==> 3 <= t.length <= 258 && 1 <= t.dist <= 32768
  }

  /** The tokens stand for exactly this text: every match repeats what stands its distance
      before, byte by byte, possibly itself. */
  ghost predicate ExpandsTo(ts: seq<Token>, text: seq<Byte>) {
    if ts == [] then text == []
    else
      var n := |text|;
      match ts[|ts| - 1]
      case Literal(b) => n > 0 && text[n - 1] == b && ExpandsTo(ts[..|ts| - 1], text[..n - 1])
      case Match(length, dist) =>
        && 0 < length && 1 <= dist && dist + length <= n
        && (forall i :: n - length <= i < n ==> text[i] == text[i - dist])
        && ExpandsTo(ts[..|ts| - 1], text[..n - length])
  }

  lemma {:induction false} AddLiteral(ts: seq<Token>, text: seq<Byte>, b: Byte)
    requires ExpandsTo(ts, text)
    ensures ExpandsTo(ts + [Literal(b)], text + [b])
  {
    assert (ts + [Literal(b)])[..|ts|] == ts;
    assert (text + [b])[..|text|] == text;
  }

  /** A match adds the bytes that repeat. */
  lemma {:induction false} AddMatch(ts: seq<Token>, text: seq<Byte>, pos: nat, length: int, dist: int)
    requires 0 < length && 1 <= dist <= pos && pos + length <= |text| && ExpandsTo(ts, text[..pos])
    requires forall i :: pos <= i < pos + length ==> text[i] == text[i - dist]
    ensures ExpandsTo(ts + [Match(length, dist)], text[..pos + length])
  {
    assert (ts + [Match(length, dist)])[..|ts|] == ts;
    assert text[..pos + length][..pos] == text[..pos];
  }

  /** The text is determined by the tokens. */
  lemma {:induction false} ExpansionUnique(ts: seq<Token>, a: seq<Byte>, b: seq<Byte>)
    requires ExpandsTo(ts, a) && ExpandsTo(ts, b)
    ensures a == b
  {
    if ts != [] {
      var m, n := |a|, |b|;
      match ts[|ts| - 1] {
        case Literal(x) =>
          ExpansionUnique(ts[..|ts| - 1], a[..m - 1], b[..n - 1]);
          assert a == a[..m - 1] + [x] && b == b[..n - 1] + [x];
        case Match(length, dist) =>
          ExpansionUnique(ts[..|ts| - 1], a[..m - length], b[..n - length]);
          SameLength(a, b, length);
          SameCopy(a, b, m - length, dist, m);
          assert a == a[..m] && b == b[..m];
      }
    }
  }

  lemma SameLength(a: seq<Byte>, b: seq<Byte>, length: int)
    requires 0 < length <= |a| && length <= |b| && a[..|a| - length] == b[..|b| - length]
    ensures |a| == |b|
  {
    assert |a[..|a| - length]| == |b[..|b| - length]|;
  }

  lemma {:induction false} SameCopy(a: seq<Byte>, b: seq<Byte>, from: nat, dist: int, end: nat)
    requires |a| == |b| && 1 <= dist <= from <= end <= |a| && a[..from] == b[..from]
    requires forall i :: from <= i < |a| ==> a[i] == a[i - dist]
    requires forall i :: from <= i < |b| ==> b[i] == b[i - dist]
    ensures a[..end] == b[..end]
    decreases end
  {
    if end > from {
      SameCopy(a, b, from, dist, end - 1);
      assert a[end - 1 - dist] == a[..end - 1][end - 1 - dist] == b[..end - 1][end - 1 - dist];
      assert a[..end] == a[..end - 1] + [a[end - 1]] && b[..end] == b[..end - 1] + [b[end - 1]];
    }
  }
}
