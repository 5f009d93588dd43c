// The bytes that identities are hashed from: every field is delimited, so
// different inputs never share a preimage.
module HashPreimage {
  import opened Options

  type byte = b: int | 0 <= b < 256

  // Go's int is 64 bits wide, so no string is longer.
  const MAX_INT: int := 0x7fff_ffff_ffff_ffff
  const TWO_64: int := 0x1_0000_0000_0000_0000

  type int64 = i: int | -MAX_INT - 1 <= i <= MAX_INT

  type Bytes = s: seq<byte> | |s| <= MAX_INT

  // A UUID is 16 bytes.
  type Uuid = u: seq<byte> | |u| == 16 witness seq(16, _ => 0)

  datatype Input = Input(
    transcript: Uuid,
    typeId: Bytes,
    annotator: Bytes,
    value: Bytes,
    entrySession: Bytes,
    entryIndex: int64,
    entryEndIndex: int64,
    isPrimary: bool,
    reason: Option<Bytes>)

  // ---- the encodings ----

  function Power(k: nat): nat { if k == 0 then 1 else 256 * Power(k - 1) }

  // The low k bytes of n, highest first.
  function BigEndian(n: nat, k: nat): (r: seq<byte>)
    ensures |r| == k
  {
    if k == 0 then [] else BigEndian(n / 256, k - 1) + [n % 256]
  }

  // binary.BigEndian.PutUint64 of uint64(v)
  function Word(v: int): (r: seq<byte>)
    ensures |r| == 8
  {
    BigEndian(v % TWO_64, 8)
  }

  // writeManualAnnotationHashString
  function Delimited(s: Bytes): seq<byte> { Word(|s|) + s }

  function HexDigit(n: nat): byte
    requires n < 16
  {
    if n < 10 then '0' as int + n else 'a' as int + n - 10
  }

  function Hex(u: seq<byte>): (r: seq<byte>)
    ensures |r| == 2 * |u|
  {
    if u == [] then [] else [HexDigit(u[0] / 16), HexDigit(u[0] % 16)] + Hex(u[1..])
  }

  // uuid.UUID.String
  function UuidText(u: Uuid): (r: Bytes)
    ensures |r| == 36
  {
    Hex(u[..4]) + DASH + Hex(u[4..6]) + DASH + Hex(u[6..8]) + DASH + Hex(u[8..10]) + DASH + Hex(u[10..])
  }

  const DASH: seq<byte> := ['-' as int]

  function Ascii(s: string): (r: seq<byte>)
    ensures |r| == |s|
  {
    seq(|s|, i requires 0 <= i < |s| => if s[i] < '\U{80}' then s[i] as int else 0)
  }

  function Flag(b: bool): seq<byte> { [if b then 1 else 0] }

  function ReasonField(reason: Option<Bytes>): seq<byte> {
    match reason
    case None => Flag(false)
    case Some(text) => Flag(true) + Delimited(text)
  }

  function Domain(): Bytes { Ascii("village.manual-annotation/v1") }

  // The bytes computeManualAnnotationHash hashes.
  function Preimage(input: Input): seq<byte> {
    Delimited(Domain()) + (Delimited(UuidText(input.transcript))
      + (Delimited(input.typeId) + (Delimited(input.annotator)
      + (Delimited(input.value) + (Delimited(input.entrySession) + (Word(input.entryIndex) + (Word(input.entryEndIndex)
      + (Flag(input.isPrimary) + ReasonField(input.reason)))))))))
  }

  // A running hash: what was written to it so far.
  class RunningHash {
    var written: seq<byte>

    constructor ()
      ensures written == []
    {
      written := [];
    }

    method Write(bytes: seq<byte>)
      modifies this
      ensures written == old(written) + bytes
    {
      written := written + bytes;
    }

    method WriteString(value: Bytes)
      modifies this
      ensures written == old(written) + Delimited(value)
    {
      hide Word;
      Write(Word(|value|));
      Write(value);
      assert old(written) + Word(|value|) + value == old(written) + (Word(|value|) + value);
    }

    method WriteInt(value: int64)
      modifies this
      ensures written == old(written) + Word(value)
    {
      Write(Word(value));
    }
  }

  // computeManualAnnotationHash, up to the digest.
  method WriteManualAnnotation(input: Input) returns (h: RunningHash)
    ensures fresh(h) && h.written == Preimage(input)
  {
    hide *;
    h := new RunningHash();
    h.WriteString(Domain());
    h.WriteString(UuidText(input.transcript));
    h.WriteString(input.typeId);
    h.WriteString(input.annotator);
    h.WriteString(input.value);
    h.WriteString(input.entrySession);
    h.WriteInt(input.entryIndex);
    h.WriteInt(input.entryEndIndex);
    if input.isPrimary {
      h.Write([1]);
    } else {
      h.Write([0]);
    }
    FlagIs(input.isPrimary);
    FlagIs(input.reason.Some?);
    WrittenIs(input, h.written);
    if input.reason.None? {
      h.Write([0]);
    } else {
      h.Write([1]);
      h.WriteString(input.reason.value);
    }
    WrittenInOrder(input, h.written);
  }

  lemma WrittenIs(input: Input, written: seq<byte>)
    requires written == [] + Delimited(Domain()) + Delimited(UuidText(input.transcript)) + Delimited(input.typeId)
                        + Delimited(input.annotator) + Delimited(input.value) + Delimited(input.entrySession)
                        + Word(input.entryIndex) + Word(input.entryEndIndex) + Flag(input.isPrimary)
    ensures written == Written(input)
  {
  }

  lemma FlagIs(b: bool)
    ensures Flag(b) == [if b then 1 else 0]
  {
  }

  // Everything before the reason, in the order it is written.
  function Written(input: Input): seq<byte> {
    [] + Delimited(Domain()) + Delimited(UuidText(input.transcript)) + Delimited(input.typeId)
      + Delimited(input.annotator)
    + Delimited(input.value) + Delimited(input.entrySession) + Word(input.entryIndex) + Word(input.entryEndIndex)
    + Flag(input.isPrimary)
  }

  lemma WrittenInOrder(input: Input, written: seq<byte>)
    requires input.reason.None? ==> written == Written(input) + Flag(false)
    requires input.reason.Some? ==> written == Written(input) + Flag(true) + Delimited(input.reason.value)
    ensures written == Preimage(input)
  {
    hide Delimited;
    hide UuidText;
    hide Word;
    hide Flag;
    hide Domain;
  }

  // ---- injectivity ----

  lemma {:induction false} BigEndianInjective(m: nat, n: nat, k: nat)
    requires m < Power(k) && n < Power(k) && BigEndian(m, k) == BigEndian(n, k)
    ensures m == n
  {
    if k > 0 {
      var a, b := BigEndian(m / 256, k - 1), BigEndian(n / 256, k - 1);
      assert BigEndian(m, k)[..k - 1] == a && BigEndian(n, k)[..k - 1] == b;
      assert BigEndian(m, k)[k - 1] == m % 256 && BigEndian(n, k)[k - 1] == n % 256;
      BigEndianInjective(m / 256, n / 256, k - 1);
    }
  }

  lemma WordInjective(v: int64, w: int64)
    requires Word(v) == Word(w)
    ensures v == w
  {
    assert Power(8) == TWO_64;
    BigEndianInjective(v % TWO_64, w % TWO_64, 8);
  }

  // Fields of equal length at the front of equal texts are equal.
  lemma SameFront(a: seq<byte>, b: seq<byte>, x: seq<byte>, y: seq<byte>)
    requires |a| == |b| && a + x == b + y
    ensures a == b && x == y
  {
    assert (a + x)[..|a|] == a && (b + y)[..|b|] == b;
    assert (a + x)[|a|..] == x && (b + y)[|b|..] == y;
  }

  // A delimited field at the front can be read off.
  lemma DelimitedFront(a: Bytes, b: Bytes, x: seq<byte>, y: seq<byte>)
    requires Delimited(a) + x == Delimited(b) + y
    ensures a == b && x == y
  {
    hide Word;
    assert Delimited(a) + x == Word(|a|) + (a + x) && Delimited(b) + y == Word(|b|) + (b + y);
    SameFront(Word(|a|), Word(|b|), a + x, b + y);
    WordInjective(|a|, |b|);
    SameFront(a, b, x, y);
  }

  lemma WordFront(v: int64, w: int64, x: seq<byte>, y: seq<byte>)
    requires Word(v) + x == Word(w) + y
    ensures v == w && x == y
  {
    SameFront(Word(v), Word(w), x, y);
    WordInjective(v, w);
  }

  lemma ReasonInjective(a: Option<Bytes>, b: Option<Bytes>)
    requires ReasonField(a) == ReasonField(b)
    ensures a == b
  {
    hide Word;
    assert ReasonField(a)[0] == if a.Some? then 1 else 0;
    assert ReasonField(b)[0] == if b.Some? then 1 else 0;
    if a.Some? {
      hide Delimited;
      SameFront(Flag(true), Flag(true), Delimited(a.value), Delimited(b.value));
      assert Delimited(a.value) + [] == Delimited(a.value) && Delimited(b.value) + [] == Delimited(b.value);
      DelimitedFront(a.value, b.value, [], []);
    }
  }

  lemma {:induction false} HexInjective(a: seq<byte>, b: seq<byte>)
    requires |a| == |b| && Hex(a) == Hex(b)
    ensures a == b
  {
    if a != [] {
      var x, y := [HexDigit(a[0] / 16), HexDigit(a[0] % 16)], [HexDigit(b[0] / 16), HexDigit(b[0] % 16)];
      SameFront(x, y, Hex(a[1..]), Hex(b[1..]));
      assert x[0] == y[0] && x[1] == y[1];
      assert a[0] == 16 * (a[0] / 16) + a[0] % 16 && b[0] == 16 * (b[0] / 16) + b[0] % 16;
      HexInjective(a[1..], b[1..]);
      assert a == [a[0]] + a[1..] && b == [b[0]] + b[1..];
    }
  }

  lemma UuidTextInjective(u: Uuid, v: Uuid)
    requires UuidText(u) == UuidText(v)
    ensures u == v
  {
    hide Hex;
    var a, b := UuidText(u), UuidText(v);
    assert a[..8] == Hex(u[..4]) && b[..8] == Hex(v[..4]);
    assert a[9..13] == Hex(u[4..6]) && b[9..13] == Hex(v[4..6]);
    assert a[14..18] == Hex(u[6..8]) && b[14..18] == Hex(v[6..8]);
    assert a[19..23] == Hex(u[8..10]) && b[19..23] == Hex(v[8..10]);
    assert a[24..] == Hex(u[10..]) && b[24..] == Hex(v[10..]);
    HexInjective(u[..4], v[..4]);
    HexInjective(u[4..6], v[4..6]);
    HexInjective(u[6..8], v[6..8]);
    HexInjective(u[8..10], v[8..10]);
    HexInjective(u[10..], v[10..]);
    assert u == u[..4] + u[4..6] + u[6..8] + u[8..10] + u[10..];
    assert v == v[..4] + v[4..6] + v[6..8] + v[8..10] + v[10..];
  }

  function Tail(input: Input): seq<byte> {
    Word(input.entryIndex) + (Word(input.entryEndIndex) + (Flag(input.isPrimary) + ReasonField(input.reason)))
  }

  lemma TailInjective(a: Input, b: Input)
    requires Tail(a) == Tail(b)
    ensures a.entryIndex == b.entryIndex && a.entryEndIndex == b.entryEndIndex && a.isPrimary == b.isPrimary
        && a.reason == b.reason
  {
    hide Word;
    hide ReasonField;
    WordFront(a.entryIndex, b.entryIndex, Word(a.entryEndIndex) + (Flag(a.isPrimary) + ReasonField(a.reason)),
      Word(b.entryEndIndex) + (Flag(b.isPrimary) + ReasonField(b.reason)));
    WordFront(a.entryEndIndex, b.entryEndIndex, Flag(a.isPrimary) + ReasonField(a.reason),
      Flag(b.isPrimary) + ReasonField(b.reason));
    SameFront(Flag(a.isPrimary), Flag(b.isPrimary), ReasonField(a.reason), ReasonField(b.reason));
    ReasonInjective(a.reason, b.reason);
  }

  // Different inputs, an absent reason and an empty one included, never share a
  // preimage.
  lemma PreimageInjective(a: Input, b: Input)
    ensures Preimage(a) == Preimage(b) ==> a == b
  {
    hide Delimited;
    hide Word;
    hide UuidText;
    hide ReasonField;
    hide Flag;
    hide Domain;
    if Preimage(a) == Preimage(b) {
      var a4, b4 := Delimited(a.entrySession) + Tail(a), Delimited(b.entrySession) + Tail(b);
      var a3, b3 := Delimited(a.value) + a4, Delimited(b.value) + b4;
      var a2, b2 := Delimited(a.annotator) + a3, Delimited(b.annotator) + b3;
      var a1, b1 := Delimited(a.typeId) + a2, Delimited(b.typeId) + b2;
      var a0, b0 := Delimited(UuidText(a.transcript)) + a1, Delimited(UuidText(b.transcript)) + b1;
      assert Preimage(a) == Delimited(Domain()) + a0 && Preimage(b) == Delimited(Domain()) + b0;
      DelimitedFront(Domain(), Domain(), a0, b0);
      DelimitedFront(UuidText(a.transcript), UuidText(b.transcript), a1, b1);
      UuidTextInjective(a.transcript, b.transcript);
      DelimitedFront(a.typeId, b.typeId, a2, b2);
      DelimitedFront(a.annotator, b.annotator, a3, b3);
      DelimitedFront(a.value, b.value, a4, b4);
      DelimitedFront(a.entrySession, b.entrySession, Tail(a), Tail(b));
      TailInjective(a, b);
    }
  }

  // ---- helper groups ----

  function Encoded(parts: seq<Bytes>): seq<byte> {
    if parts == [] then [] else Delimited(parts[0]) + Encoded(parts[1..])
  }

  // helperGroupID's parts; a helper without an owner is alone in its group.
  function GroupParts(ownerKey: Bytes, local: Bytes, owner: Bytes, purpose: Bytes): seq<Bytes> {
    if owner == [] then [Ascii("1"), ownerKey, Ascii("unresolved"), local, purpose]
    else [Ascii("1"), ownerKey, owner, purpose]
  }

  method WriteParts(parts: seq<Bytes>) returns (h: RunningHash)
    ensures fresh(h) && h.written == Encoded(parts)
  {
    hide Delimited;
    h := new RunningHash();
    assert parts[..0] == [];
    for i := 0 to |parts|
      invariant fresh(h) && h.written == Encoded(parts[..i])
    {
      h.WriteString(parts[i]);
      EncodedSnoc(parts[..i], parts[i]);
      assert parts[..i + 1] == parts[..i] + [parts[i]];
    }
    assert parts[..|parts|] == parts;
  }

  lemma {:induction false} EncodedSnoc(parts: seq<Bytes>, p: Bytes)
    ensures Encoded(parts + [p]) == Encoded(parts) + Delimited(p)
  {
    hide Delimited;
    if parts == [] {
      assert [p][1..] == [] && [] + [p] == [p];
      assert Encoded([p]) == Delimited(p) + Encoded([]);
    } else {
      assert (parts + [p])[1..] == parts[1..] + [p];
      EncodedSnoc(parts[1..], p);
    }
  }

  lemma EncodedNonempty(parts: seq<Bytes>)
    ensures Encoded(parts) == [] <==> parts == []
  {
    hide Word;
  }

  lemma {:induction false} EncodedInjective(a: seq<Bytes>, b: seq<Bytes>)
    requires Encoded(a) == Encoded(b)
    ensures a == b
  {
    hide Word;
    if a == [] || b == [] {
      EncodedNonempty(a);
      EncodedNonempty(b);
    } else {
      DelimitedFront(a[0], b[0], Encoded(a[1..]), Encoded(b[1..]));
      EncodedInjective(a[1..], b[1..]);
      assert a == [a[0]] + a[1..] && b == [b[0]] + b[1..];
    }
  }

  // Two helpers share a group preimage exactly when they have the same account
  // and the same owner, or are the same helper without one; an owner that is
  // itself named "unresolved" is no exception.
  lemma GroupPreimageExactly(key: Bytes, local: Bytes, owner: Bytes, key': Bytes, local': Bytes, owner': Bytes,
                             purpose: Bytes)
    ensures Encoded(GroupParts(key, local, owner, purpose)) == Encoded(GroupParts(key', local', owner', purpose)) <==>
            key == key' && owner == owner' && (owner == [] ==> local == local')
  {
    hide Encoded;
    hide Ascii;
    var p, q := GroupParts(key, local, owner, purpose), GroupParts(key', local', owner', purpose);
    if Encoded(p) == Encoded(q) {
      EncodedInjective(p, q);
      assert |p| == |q| && p[1] == q[1] && p[2] == q[2] && p[3] == q[3];
    }
  }
}
