/** The binary AND section of the AIGER format: numbers as groups of seven bits, gates as differences of literals. */
module DeltaCodec {

  /** Unsigned numbers have 32 bits. */
  const WORD := 0x1_0000_0000

  type word = x: int | 0 <= x < WORD

  type byte = x: int | 0 <= x < 256

  // ---------- one number ----------

  /** Seven bits in each byte, least significant first; all bytes but the last have their top bit set. */
  function Encode(d: nat): seq<byte> {
    if d < 128 then [d] else [128 + d % 128] + Encode(d / 128)
  }

  method WriteDelta(delta: nat) returns (out: seq<byte>)
    requires delta < WORD
    ensures out == Encode(delta)
  {
    out := [];
    var tmp := delta;
    while tmp >= 128
      invariant out + Encode(tmp) == Encode(delta)
      decreases tmp
    {
      assert out + [128 + tmp % 128] + Encode(tmp / 128) == out + Encode(tmp);
      out := out + [128 + tmp % 128];
      tmp := tmp / 128;
    }
    out := out + [tmp];
  }

  function Power(k: nat): nat { if k == 0 then 1 else 128 * Power(k - 1) }

  lemma {:induction false} EncodeSize(d: nat, k: nat)
    requires d < Power(k) && k > 0
    ensures 1 <= |Encode(d)| <= k
  {
    if d >= 128 {
      EncodeSize(d / 128, k - 1);
    }
  }

  /** A 32-bit number takes at most five bytes. */
  lemma FiveBytes(d: nat)
    requires d < WORD
    ensures |Encode(d)| <= 5
  {
    assert Power(5) == 0x8_0000_0000;
    EncodeSize(d, 5);
  }

  /** What a sequence of bytes stands for, without a bound on the size. */
  function Meaning(code: seq<byte>): nat {
    if code == [] then 0 else code[0] % 128 + 128 * Meaning(code[1..])
  }

  lemma {:induction false} MeaningEncode(d: nat)
    ensures Meaning(Encode(d)) == d
  {
    if d >= 128 {
      MeaningEncode(d / 128);
      assert Encode(d)[1..] == Encode(d / 128);
    }
  }

  /** How many bytes at the front have their top bit set. */
  function Leading(s: seq<byte>): (k: nat)
    ensures k <= |s|
  {
    if s == [] || s[0] < 128 then 0 else 1 + Leading(s[1..])
  }

  datatype Decoded = Delta(value: nat, rest: seq<byte>) | EndOfFile | InvalidCode

  /** What the reader makes of its input, with shifts that drop the bits beyond 32. The C standard leaves two of them
      undefined: by 28 places for a byte of 8 or more, where the bits reach the sign of an `int`, and by 35 places
      after five leading bytes. For the first this is what the usual machines do, for the second `beyond` stands for
      whatever comes out. */
  function Decode(s: seq<byte>, beyond: word): Decoded {
    var k := Leading(s);
    if k > 5 then InvalidCode
    else if k == |s| then EndOfFile
    else if k == 5 && s[k] >= 8 then InvalidCode
    else Delta(if k == 5 then beyond else Meaning(s[..k + 1]) % WORD, s[k + 1..])
  }

  lemma {:induction false} EncodeLeading(d: nat, rest: seq<byte>)
    ensures Leading(Encode(d) + rest) == |Encode(d)| - 1
  {
    if d >= 128 {
      EncodeLeading(d / 128, rest);
      assert (Encode(d) + rest)[1..] == Encode(d / 128) + rest;
    }
  }

  /** Every number is read back as it was written, and what follows stays unread. */
  lemma DeltaRoundTrip(d: nat, rest: seq<byte>, beyond: word)
    requires d < WORD
    ensures Decode(Encode(d) + rest, beyond) == Delta(d, rest)
  {
    hide Encode, Meaning, Leading;
    var c := Encode(d);
    FiveBytes(d);
    EncodeLeading(d, rest);
    MeaningEncode(d);
    Small(0, d);
    assert (c + rest)[..|c|] == c && (c + rest)[|c|..] == rest;
  }

  /** The reader does not reject every code that does not fit: in a fifth byte it looks at none of the upper bits. */
  lemma OverlongAccepted(beyond: word)
    ensures var s: seq<byte> := [0xff, 0xff, 0xff, 0xff, 0x7f];
            Decode(s, beyond) == Delta(WORD - 1, []) && Meaning(s) > WORD - 1
  {
    var s: seq<byte> := [0xff, 0xff, 0xff, 0xff, 0x7f];
    assert s[1..] == [0xff, 0xff, 0xff, 0x7f] && s[2..] == [0xff, 0xff, 0x7f] && s[3..] == [0xff, 0x7f] && s[4..] == [0x7f];
    assert s[1..][1..] == s[2..] && s[2..][1..] == s[3..] && s[3..][1..] == s[4..] && s[4..][1..] == [];
    assert Leading(s[4..]) == 0;
    assert Leading(s[3..]) == 1;
    assert Leading(s[2..]) == 2;
    assert Leading(s[1..]) == 3;
    assert Leading(s) == 4;
    assert Meaning(s[4..]) == 0x7f;
    assert Meaning(s[3..]) == 0x7f + 128 * 0x7f;
    assert Meaning(s[2..]) == 0x7f + 128 * (0x7f + 128 * 0x7f);
    assert s[..5] == s;
  }

  /** Exactly the accepted codes of at most five bytes that fit into 32 bits are decoded to what they stand for; the
      check a caller can make is on the fifth byte. */
  lemma DecodesExactly(s: seq<byte>, beyond: word)
    requires Leading(s) < |s| && Leading(s) < 5
    ensures Decode(s, beyond).Delta?
    ensures Decode(s, beyond).value == Meaning(s[..Leading(s) + 1]) <==> Leading(s) < 4 || s[4] < 16
  {
    hide Power, Meaning;
    var k := Leading(s);
    LeadingLast(s);
    if k < 4 {
      ShortFits(s[..k + 1]);
    } else {
      FifthByte(s[..5]);
    }
  }

  lemma ShortFits(c: seq<byte>)
    requires 0 < |c| < 5
    ensures Meaning(c) < WORD && Meaning(c) % WORD == Meaning(c)
  {
    hide Power, Meaning;
    MeaningSize(c);
    SmallPower(|c| - 1);
    Small(0, Meaning(c));
  }

  /** Five bytes fit if and only if the last one is below 16. */
  lemma FifthByte(c: seq<byte>)
    requires |c| == 5 && c[4] < 128
    ensures Meaning(c) % WORD == Meaning(c) <==> c[4] < 16
  {
    hide Power, Meaning;
    Powers();
    MeaningSplit(c, 4);
    MeaningSize(c[..4]);
    assert c[4..] == [c[4]];
    OneByte(c[4]);
    var low: nat, b: nat := Meaning(c[..4]), c[4];
    assert Meaning(c) == low + 0x1000_0000 * b;
    TopBits(low, b);
  }

  lemma SmallPower(k: nat)
    requires k < 4
    ensures Power(k + 1) <= 0x1000_0000
  {
    hide Power;
    Powers();
  }

  lemma NoByte()
    ensures Meaning([]) == 0
  {
  }

  lemma OneByte(b: byte)
    ensures Meaning([b]) == b % 128
  {
    assert [b][1..] == [];
    assert Meaning([b]) == b % 128 + 128 * Meaning([]);
  }

  lemma {:induction false} LeadingLast(s: seq<byte>)
    ensures Leading(s) < |s| ==> s[Leading(s)] < 128
    ensures forall k :: 0 <= k < Leading(s) ==> s[k] >= 128
  {
    if s != [] && s[0] >= 128 {
      LeadingLast(s[1..]);
      forall k | 0 <= k < Leading(s) ensures s[k] >= 128 { if k > 0 { assert s[k] == s[1..][k - 1]; } }
    }
  }

  lemma {:induction false} MeaningSize(c: seq<byte>)
    ensures Meaning(c) < Power(|c|)
  {
    if c != [] { MeaningSize(c[1..]); }
  }

  lemma {:induction false} MeaningSplit(c: seq<byte>, k: nat)
    requires k <= |c|
    ensures Meaning(c) == Meaning(c[..k]) + Power(k) * Meaning(c[k..])
  {
    if k == 0 {
      assert c[0..] == c;
    } else {
      MeaningSplit(c[1..], k - 1);
      assert c[1..][..k - 1] == c[..k][1..] && c[1..][k - 1..] == c[k..];
      Distribute(128, Power(k - 1), Meaning(c[k..]));
    }
  }

  lemma Distribute(a: nat, b: nat, c: nat)
    ensures a * (b * c) == (a * b) * c
  {
  }

  class Reader {
    const data: seq<byte>
    var pos: nat

    constructor (data: seq<byte>)
      ensures this.data == data && pos == 0
    {
      this.data, pos := data, 0;
    }

    ghost function Rest(): seq<byte>
      reads this`pos
    {
      if pos <= |data| then data[pos..] else []
    }

    /** Reads one number. */
    method ReadDelta(beyond: word) returns (r: Decoded)
      requires pos <= |data|
      modifies this`pos
      ensures old(pos) <= pos <= |data|
      ensures r == Decode(old(Rest()), beyond) && (r.Delta? ==> Rest() == r.rest)
    {
      hide Meaning, Shifted;
      ghost var s := Rest();
      LeadingLast(s);
      if pos == |data| {
        return EndOfFile;
      }
      var i, res: nat := 0, 0;
      NoByte();
      assert s[..0] == [];
      while data[pos] >= 128
        invariant pos < |data| && pos == old(pos) + i && i <= 5 && i <= Leading(s)
        invariant res == Meaning(s[..i]) % WORD
        decreases |data| - pos
      {
        if i == 5 {
          MoreLeading(s, i);
          return InvalidCode;
        }
        MoreLeading(s, i);
        NextBits(s[..i], data[pos], i);
        assert s[..i + 1] == s[..i] + [data[pos]];
        res := res + Shifted(data[pos] % 128, i);
        i := i + 1;
        pos := pos + 1;
        if pos == |data| {
          return EndOfFile;
        }
      }
      assert data[pos] == s[i];
      if i == 5 && data[pos] >= 8 {
        return InvalidCode;
      }
      if i == 5 {
        res := beyond;
      } else {
        NextBits(s[..i], data[pos], i);
        assert s[..i + 1] == s[..i] + [data[pos]];
        res := res + Shifted(data[pos], i);
      }
      pos := pos + 1;
      return Delta(res, data[pos..]);
    }

    /** Reads `count` gates, the first of them with the output behind literal `max`. */
    method ReadAnds(count: nat, max: nat, beyond: word) returns (r: Section)
      requires pos <= |data|
      modifies this`pos
      ensures pos <= |data| && r == DecodeAnds(count, max + 2, old(Rest()), beyond) && (r.Ands? ==> r.rest == Rest())
    {
      hide Decode, Prepend;
      ghost var s := Rest();
      var ands := [];
      var lhs := max;
      NothingBefore(DecodeAnds(count, max + 2, s, beyond));
      for i := 0 to count
        invariant pos <= |data| && lhs == max + 2 * i
        invariant DecodeAnds(count, max + 2, s, beyond) == Prepend(ands, DecodeAnds(count - i, lhs + 2, Rest(), beyond))
      {
        lhs := lhs + 2;
        MalformedStays(ands);
        var delta := ReadDelta(beyond);
        if !delta.Delta? || delta.value > lhs {
          return Malformed;
        }
        var rhs0 := lhs - delta.value;
        delta := ReadDelta(beyond);
        if !delta.Delta? || delta.value > rhs0 {
          return Malformed;
        }
        var a := And(lhs, rhs0, rhs0 - delta.value);
        PrependTwice(ands, [a], DecodeAnds(count - i - 1, lhs + 2, Rest(), beyond));
        ands := ands + [a];
      }
      AllBefore(ands, Rest());
      return Ands(ands, data[pos..]);
    }
  }

  lemma NothingBefore(section: Section)
    ensures Prepend([], section) == section
  {
    if section.Ands? { assert [] + section.ands == section.ands; }
  }

  lemma MalformedStays(ands: seq<And>)
    ensures Prepend(ands, Malformed) == Malformed
  {
  }

  lemma AllBefore(ands: seq<And>, rest: seq<byte>)
    ensures Prepend(ands, Ands([], rest)) == Ands(ands, rest)
  {
    assert ands + [] == ands;
  }

  // ---------- the gates ----------

  datatype And = And(lhs: nat, rhs0: nat, rhs1: nat)

  /** Consecutive left-hand sides from `lhs` on, right-hand sides in order and not above. */
  ghost predicate SectionOk(ands: seq<And>, lhs: nat) {
    forall i :: 0 <= i < |ands| ==>
      ands[i].lhs == lhs + 2 * i < WORD && ands[i].rhs0 <= ands[i].lhs && ands[i].rhs1 <= ands[i].rhs0
  }

  function EncodeAnds(ands: seq<And>, lhs: nat): seq<byte>
    requires SectionOk(ands, lhs)
  {
    if ands == [] then []
    else
      var n := |ands| - 1;
      EncodeAnds(ands[..n], lhs) + Encode(lhs + 2 * n - ands[n].rhs0) + Encode(ands[n].rhs0 - ands[n].rhs1)
  }

  /** Writes every gate as the difference of its output and its larger input, and the difference of its inputs. */
  method WriteAnds(ands: seq<And>, first: nat) returns (out: seq<byte>)
    requires SectionOk(ands, first)
    ensures out == EncodeAnds(ands, first)
  {
    out := [];
    var lhs := first;
    for i := 0 to |ands|
      invariant lhs == first + 2 * i && out == EncodeAnds(ands[..i], first)
    {
      var d0 := WriteDelta(lhs - ands[i].rhs0);
      var d1 := WriteDelta(ands[i].rhs0 - ands[i].rhs1);
      assert ands[..i + 1][..i] == ands[..i];
      out := out + d0 + d1;
      lhs := lhs + 2;
    }
    assert ands[..|ands|] == ands;
  }

  datatype Section = Ands(ands: seq<And>, rest: seq<byte>) | Malformed

  /** What the reader makes of a section with `count` gates whose first output is `lhs`. */
  function DecodeAnds(count: nat, lhs: nat, s: seq<byte>, beyond: word): Section {
    if count == 0 then Ands([], s)
    else
      match Decode(s, beyond)
      case EndOfFile => Malformed
      case InvalidCode => Malformed
      case Delta(d0, r) =>
        if d0 > lhs then Malformed
        else
          match Decode(r, beyond)
          case EndOfFile => Malformed
          case InvalidCode => Malformed
          case Delta(d1, q) =>
            if d1 > lhs - d0 then Malformed
            else Prepend([And(lhs, lhs - d0, lhs - d0 - d1)], DecodeAnds(count - 1, lhs + 2, q, beyond))
  }

  function Prepend(ands: seq<And>, section: Section): Section {
    match section
    case Malformed => Malformed
    case Ands(more, rest) => Ands(ands + more, rest)
  }

  lemma PrependTwice(a: seq<And>, b: seq<And>, section: Section)
    ensures Prepend(a, Prepend(b, section)) == Prepend(a + b, section)
  {
    if section.Ands? { assert a + (b + section.ands) == a + b + section.ands; }
  }

  /** The section is read back gate by gate, and what follows stays unread. */
  lemma SectionRoundTrip(ands: seq<And>, lhs: nat, rest: seq<byte>, beyond: word)
    requires SectionOk(ands, lhs)
    ensures DecodeAnds(|ands|, lhs, EncodeAnds(ands, lhs) + rest, beyond) == Ands(ands, rest)
  {
    hide Decode, Encode;
    assert ands[..0] == [] && ands[0..] == ands;
    SectionSuffix(ands, lhs, 0, rest, beyond);
    assert EncodeAnds(ands[..0], lhs) == [];
    assert EncodeAnds(ands, lhs) == Bytes(ands, lhs, 0) by { BytesAll(ands, lhs, 0); }
  }

  /** Followed by `rest`, the bytes decode to these gates, and `rest` is left over. */
  ghost predicate ReadBack(bytes: seq<byte>, ands: seq<And>, first: nat, rest: seq<byte>, beyond: word) {
    DecodeAnds(|ands|, first, bytes + rest, beyond) == Ands(ands, rest)
  }

  ghost predicate AlwaysReadBack(bytes: seq<byte>, ands: seq<And>, first: nat) {
    forall rest: seq<byte>, beyond: word :: ReadBack(bytes, ands, first, rest, beyond)
  }

  lemma EncodedReadBack(ands: seq<And>, first: nat)
    requires SectionOk(ands, first)
    ensures AlwaysReadBack(EncodeAnds(ands, first), ands, first)
  {
    hide SectionOk;
    forall rest: seq<byte>, beyond: word ensures ReadBack(EncodeAnds(ands, first), ands, first, rest, beyond) {
      SectionRoundTrip(ands, first, rest, beyond);
    }
  }

  /** The bytes of the gates from place `k` on. */
  ghost function Bytes(ands: seq<And>, lhs: nat, k: nat): seq<byte>
    requires SectionOk(ands, lhs) && k <= |ands|
    decreases |ands| - k
  {
    if k == |ands| then []
    else Encode(lhs + 2 * k - ands[k].rhs0) + Encode(ands[k].rhs0 - ands[k].rhs1) + Bytes(ands, lhs, k + 1)
  }

  lemma {:induction false} BytesAll(ands: seq<And>, lhs: nat, k: nat)
    requires SectionOk(ands, lhs) && k <= |ands|
    ensures EncodeAnds(ands, lhs) == EncodeAnds(ands[..k], lhs) + Bytes(ands, lhs, k)
    decreases |ands| - k
  {
    hide Encode;
    hide EncodeAnds;
    if k == |ands| {
      assert ands[..k] == ands;
    } else {
      BytesAll(ands, lhs, k + 1);
      EncodeNext(ands, lhs, k);
      Regroup(EncodeAnds(ands[..k], lhs), Encode(lhs + 2 * k - ands[k].rhs0), Encode(ands[k].rhs0 - ands[k].rhs1), Bytes(ands, lhs, k + 1));
    }
  }

  lemma Regroup(x: seq<byte>, a: seq<byte>, b: seq<byte>, y: seq<byte>)
    ensures x + a + b + y == x + (a + b + y)
  {
  }

  lemma EncodeNext(ands: seq<And>, lhs: nat, k: nat)
    requires SectionOk(ands, lhs) && k < |ands|
    ensures EncodeAnds(ands[..k + 1], lhs)
         == EncodeAnds(ands[..k], lhs) + Encode(lhs + 2 * k - ands[k].rhs0) + Encode(ands[k].rhs0 - ands[k].rhs1)
  {
    hide Encode;
    assert ands[..k + 1][..k] == ands[..k];
  }

  lemma {:induction false} SectionSuffix(ands: seq<And>, lhs: nat, k: nat, rest: seq<byte>, beyond: word)
    requires SectionOk(ands, lhs) && k <= |ands|
    ensures DecodeAnds(|ands| - k, lhs + 2 * k, Bytes(ands, lhs, k) + rest, beyond) == Ands(ands[k..], rest)
    decreases |ands| - k
  {
    hide Decode, Encode, DecodeAnds;
    if k < |ands| {
      var a := ands[k];
      var first, second, more := Encode(a.lhs - a.rhs0), Encode(a.rhs0 - a.rhs1), Bytes(ands, lhs, k + 1) + rest;
      SectionSuffix(ands, lhs, k + 1, rest, beyond);
      OneGate(|ands| - k, a, more, beyond);
      assert Bytes(ands, lhs, k) + rest == first + (second + more);
      assert ands[k..] == [a] + ands[k + 1..];
    } else {
      NoGates(lhs + 2 * k, rest, beyond);
      assert Bytes(ands, lhs, k) + rest == rest;
    }
  }

  lemma NoGates(lhs: nat, s: seq<byte>, beyond: word)
    ensures DecodeAnds(0, lhs, s, beyond) == Ands([], s)
  {
  }

  lemma OneGate(count: nat, a: And, more: seq<byte>, beyond: word)
    requires count > 0 && a.lhs < WORD && a.rhs1 <= a.rhs0 <= a.lhs
    ensures DecodeAnds(count, a.lhs, Encode(a.lhs - a.rhs0) + (Encode(a.rhs0 - a.rhs1) + more), beyond)
         == Prepend([a], DecodeAnds(count - 1, a.lhs + 2, more, beyond))
  {
    hide Decode, Encode, Prepend;
    DeltaRoundTrip(a.lhs - a.rhs0, Encode(a.rhs0 - a.rhs1) + more, beyond);
    DeltaRoundTrip(a.rhs0 - a.rhs1, more, beyond);
  }

  // ---------- what is accepted ----------

  /** The bytes of one number that the reader takes: the last one has its top bit clear, and only a last one below 8 may come
      sixth. */
  predicate IsCode(c: seq<byte>) {
    && c != [] && c[|c| - 1] < 128 && (forall k :: 0 <= k < |c| - 1 ==> c[k] >= 128)
    && (|c| <= 5 || (|c| == 6 && c[5] < 8))
  }

  function Value(c: seq<byte>, beyond: word): nat { if |c| == 6 then beyond else Meaning(c) % WORD }

  lemma CodeLeading(s: seq<byte>, n: nat)
    requires n <= |s| && IsCode(s[..n])
    ensures Leading(s) == n - 1
  {
    LeadingLast(s);
    assert s[n - 1] == s[..n][n - 1];
    forall k | 0 <= k < n - 1 ensures s[k] >= 128 { assert s[k] == s[..n][k]; }
  }

  /** A number is read exactly if the input starts with a code; the input ends too early exactly if it has at most five bytes
      and all their top bits are set. */
  lemma AcceptsExactly(s: seq<byte>, beyond: word)
    ensures forall n :: 0 <= n <= |s| && IsCode(s[..n]) ==> Decode(s, beyond) == Delta(Value(s[..n], beyond), s[n..])
    ensures Decode(s, beyond).Delta? ==> exists n :: 0 <= n <= |s| && IsCode(s[..n])
    ensures Decode(s, beyond).EndOfFile? <==> |s| <= 5 && forall k :: 0 <= k < |s| ==> s[k] >= 128
  {
    hide Meaning;
    forall n | 0 <= n <= |s| && IsCode(s[..n]) ensures Decode(s, beyond) == Delta(Value(s[..n], beyond), s[n..]) {
      CodeLeading(s, n);
      assert s[n - 1] == s[..n][n - 1];
    }
    LeadingLast(s);
    if Decode(s, beyond).Delta? {
      var n := Leading(s) + 1;
      assert IsCode(s[..n]);
    }
  }

  function Joined(codes: seq<seq<byte>>): seq<byte> { if codes == [] then [] else codes[0] + Joined(codes[1..]) }

  /** Two codes for every gate: the difference of its output and its larger input, and that of its inputs. */
  ghost predicate Spells(codes: seq<seq<byte>>, ands: seq<And>, lhs: nat, beyond: word)
    decreases |ands|
  {
    if ands == [] then codes == []
    else
      && |codes| >= 2 && IsCode(codes[0]) && IsCode(codes[1]) && ands[0].lhs == lhs
      && ands[0].rhs0 == lhs - Value(codes[0], beyond) && ands[0].rhs1 == ands[0].rhs0 - Value(codes[1], beyond)
      && Spells(codes[2..], ands[1..], lhs + 2, beyond)
  }

  lemma OneCode(c: seq<byte>, s: seq<byte>, beyond: word)
    requires IsCode(c)
    ensures Decode(c + s, beyond) == Delta(Value(c, beyond), s)
  {
    hide Decode, IsCode, Value;
    AcceptsExactly(c + s, beyond);
    assert (c + s)[..|c|] == c && (c + s)[|c|..] == s;
  }

  /** Whatever spells a section is accepted. */
  lemma {:induction false} SectionAccepted(codes: seq<seq<byte>>, ands: seq<And>, lhs: nat, rest: seq<byte>, beyond: word)
    requires Spells(codes, ands, lhs, beyond)
    ensures DecodeAnds(|ands|, lhs, Joined(codes) + rest, beyond) == Ands(ands, rest)
    decreases |ands|
  {
    hide Decode, IsCode, Value;
    if ands == [] {
      assert Joined(codes) + rest == rest;
    } else {
      var more := Joined(codes[2..]) + rest;
      assert codes[1..][1..] == codes[2..];
      assert Joined(codes) + rest == codes[0] + (codes[1] + more);
      OneCode(codes[0], codes[1] + more, beyond);
      OneCode(codes[1], more, beyond);
      SectionAccepted(codes[2..], ands[1..], lhs + 2, rest, beyond);
      assert ands == [ands[0]] + ands[1..];
    }
  }

  lemma FirstGate(count: nat, lhs: nat, s: seq<byte>, beyond: word) returns (c: seq<byte>, d: seq<byte>, q: seq<byte>, a: And)
    requires count > 0 && DecodeAnds(count, lhs, s, beyond).Ands?
    ensures IsCode(c) && IsCode(d) && s == c + (d + q) && a.lhs == lhs
    ensures a.rhs0 == lhs - Value(c, beyond) && a.rhs1 == a.rhs0 - Value(d, beyond)
    ensures DecodeAnds(count, lhs, s, beyond) == Prepend([a], DecodeAnds(count - 1, lhs + 2, q, beyond))
  {
    hide Decode, IsCode, Value, Prepend;
    var n := CodeAt(s, beyond);
    c, d := s[..n], s[n..];
    assert s == c + d;
    var m := CodeAt(d, beyond);
    q := d[m..];
    assert d == d[..m] + q;
    d := d[..m];
    a := And(lhs, lhs - Value(c, beyond), lhs - Value(c, beyond) - Value(d, beyond));
  }

  lemma SpellsMore(c: seq<byte>, d: seq<byte>, a: And, codes: seq<seq<byte>>, ands: seq<And>, lhs: nat, rest: seq<byte>, beyond: word)
    requires IsCode(c) && IsCode(d) && Spells(codes, ands, lhs + 2, beyond) && a.lhs == lhs
    requires a.rhs0 == lhs - Value(c, beyond) && a.rhs1 == a.rhs0 - Value(d, beyond)
    ensures Spells([c, d] + codes, [a] + ands, lhs, beyond)
    ensures Joined([c, d] + codes) + rest == c + (d + (Joined(codes) + rest))
  {
    hide IsCode, Value;
    var all := [c, d] + codes;
    assert all[2..] == codes && all[1..] == [d] + codes && all[1..][1..] == codes && ([a] + ands)[1..] == ands;
    assert Joined(all) == c + (d + Joined(codes));
  }

  /** Nothing else is. */
  lemma {:induction false} AcceptedSpells(count: nat, lhs: nat, s: seq<byte>, beyond: word) returns (codes: seq<seq<byte>>)
    requires DecodeAnds(count, lhs, s, beyond).Ands?
    ensures var r := DecodeAnds(count, lhs, s, beyond);
            |r.ands| == count && Spells(codes, r.ands, lhs, beyond) && s == Joined(codes) + r.rest
  {
    hide Decode, IsCode, Value;
    codes := [];
    if count > 0 {
      hide DecodeAnds, Spells, Joined;
      var c, d, q, a := FirstGate(count, lhs, s, beyond);
      var more := AcceptedSpells(count - 1, lhs + 2, q, beyond);
      var r := DecodeAnds(count - 1, lhs + 2, q, beyond);
      SpellsMore(c, d, a, more, r.ands, lhs, r.rest, beyond);
      codes := [c, d] + more;
    }
  }

  lemma CodeAt(s: seq<byte>, beyond: word) returns (n: nat)
    requires Decode(s, beyond).Delta?
    ensures n <= |s| && IsCode(s[..n]) && Decode(s, beyond) == Delta(Value(s[..n], beyond), s[n..])
  {
    hide Decode, IsCode, Value;
    AcceptsExactly(s, beyond);
    n :| 0 <= n <= |s| && IsCode(s[..n]);
  }

  /** A section is rejected exactly if it starts with no spelling of as many gates. */
  lemma SectionRejected(count: nat, lhs: nat, s: seq<byte>, beyond: word)
    ensures DecodeAnds(count, lhs, s, beyond).Malformed? <==>
            forall codes, ands, rest: seq<byte> :: |ands| == count && s == Joined(codes) + rest ==> !Spells(codes, ands, lhs, beyond)
  {
    hide Decode, IsCode, Value, Spells, DecodeAnds;
    forall codes, ands, rest: seq<byte> | |ands| == count && s == Joined(codes) + rest && Spells(codes, ands, lhs, beyond)
      ensures !DecodeAnds(count, lhs, s, beyond).Malformed?
    {
      SectionAccepted(codes, ands, lhs, rest, beyond);
    }
    var d := DecodeAnds(count, lhs, s, beyond);
    if d.Ands? {
      var codes := AcceptedSpells(count, lhs, s, beyond);
      assert Spells(codes, d.ands, lhs, beyond) && s == Joined(codes) + d.rest;
    }
  }

  /** Seven bits shifted into place, in a 32-bit word. */
  function Shifted(x: nat, i: nat): nat {
    (x * Power(i)) % WORD
  }

  lemma MoreLeading(s: seq<byte>, i: nat)
    requires i <= Leading(s) && i < |s| && s[i] >= 128
    ensures i < Leading(s)
  {
    LeadingLast(s);
  }

  /** The bits of the next byte do not overlap with those read before, so that adding them sets them. */
  lemma NextBits(c: seq<byte>, b: byte, i: nat)
    requires |c| == i < 5
    ensures Meaning(c) % WORD + Shifted(b % 128, i) == Meaning(c + [b]) % WORD
    ensures Meaning(c) % WORD < Power(i)
  {
    hide Power, Meaning;
    MeaningSplit(c + [b], i);
    assert (c + [b])[..i] == c && (c + [b])[i..] == [b];
    OneByte(b);
    MeaningSize(c);
    Powers();
    Small(0, Meaning(c));
    NoCarry(Meaning(c), b % 128, i);
  }

  lemma Powers()
    ensures Power(0) == 1 && Power(1) == 0x80 && Power(2) == 0x4000 && Power(3) == 0x20_0000 && Power(4) == 0x1000_0000
  {
    assert Power(0) == 1;
    assert Power(1) == 0x80;
    assert Power(2) == 0x4000;
    assert Power(3) == 0x20_0000;
  }

  lemma NoCarry(low: nat, x: nat, i: nat)
    requires i < 5 && low < Power(i) && x < 128
    ensures low < WORD && (low + Power(i) * x) % WORD == low + (x * Power(i)) % WORD
  {
    hide Power;
    Powers();
    if i == 0 { Small(low, x); }
    else if i == 1 { Small(low, x * 0x80); }
    else if i == 2 { Small(low, x * 0x4000); }
    else if i == 3 { Small(low, x * 0x20_0000); }
    else { TopBits(low, x); }
  }

  lemma Small(low: nat, y: nat)
    requires low + y < WORD
    ensures (low + y) % WORD == low + y % WORD
  {
  }

  /** Of the fifth group only four bits fit. */
  lemma TopBits(low: nat, x: nat)
    requires low < 0x1000_0000 && x < 128
    ensures (x * 0x1000_0000) % WORD == (x % 16) * 0x1000_0000
    ensures (low + 0x1000_0000 * x) % WORD == low + (x % 16) * 0x1000_0000
  {
    var q, r := x / 16, x % 16;
    assert x * 0x1000_0000 == q * WORD + r * 0x1000_0000;
    Multiple(q, r * 0x1000_0000);
    Multiple(q, low + r * 0x1000_0000);
  }

  lemma Multiple(q: nat, y: nat)
    requires y < WORD
    ensures (q * WORD + y) % WORD == y
  {
  }
}
