/**
 * The wire record `struct zmk_split_bt_input_event`: a packed struct that the
 * peripheral notifies as its raw bytes and that the central copies back into
 * the same struct. The multi-byte fields are host-order; this model fixes
 * little-endian on both sides.
 */
module WireEvent {

  type Byte = x: int | 0 <= x < 0x100
  type U8 = Byte
  type U16 = x: int | 0 <= x < 0x1_0000
  type I32 = x: int | -0x8000_0000 <= x < 0x8000_0000

  /** sizeof(struct zmk_split_bt_input_event): 1 + 1 + 1 + 2 + 4, no padding. */
  const RecordSize: nat := 9

  datatype Record = Record(relayChannel: U8, sync: U8, eventType: U8, code: U16, value: I32)

  /** The record the peripheral's `last_input_event` global holds before anything is sent. */
  const ZeroRecord: Record := Record(0, 0, 0, 0, 0)

  function Pow256(n: nat): (p: nat)
    ensures p > 0
  {
    if n == 0 then 1 else 0x100 * Pow256(n - 1)
  }

  /** The n low-order bytes of x, least significant first. */
  function ToLittleEndian(x: nat, n: nat): (b: seq<Byte>)
    ensures |b| == n
  {
    if n == 0 then [] else [x % 0x100] + ToLittleEndian(x / 0x100, n - 1)
  }

  /** The unsigned number whose little-endian bytes are b. */
  function FromLittleEndian(b: seq<Byte>): (x: nat)
    ensures x < Pow256(|b|)
  {
    if b == [] then 0 else b[0] + 0x100 * FromLittleEndian(b[1..])
  }

  lemma {:induction false} FromToLittleEndian(x: nat, n: nat)
    requires x < Pow256(n)
    ensures FromLittleEndian(ToLittleEndian(x, n)) == x
  {
    if n > 0 {
      FromToLittleEndian(x / 0x100, n - 1);
      assert ToLittleEndian(x, n)[1..] == ToLittleEndian(x / 0x100, n - 1);
    }
  }

  lemma {:induction false} ToFromLittleEndian(b: seq<Byte>)
    ensures ToLittleEndian(FromLittleEndian(b), |b|) == b
  {
    if b != [] {
      var x := FromLittleEndian(b);
      assert x % 0x100 == b[0] && x / 0x100 == FromLittleEndian(b[1..]);
      ToFromLittleEndian(b[1..]);
    }
  }

  /** The 32-bit two's-complement pattern of a signed value. */
  function Unsigned32(v: I32): (u: nat)
    ensures u < Pow256(4)
  {
    assert Pow256(4) == 0x1_0000_0000;
    if v < 0 then v + 0x1_0000_0000 else v
  }

  /** The signed value of a 32-bit two's-complement pattern. */
  function Signed32(u: nat): (v: I32)
    requires u < Pow256(4)
  {
    assert Pow256(4) == 0x1_0000_0000;
    if u < 0x8000_0000 then u else u - 0x1_0000_0000
  }

  /** The bytes of the packed struct: channel, sync, type, code (2 bytes), value (4 bytes). */
  function Encode(r: Record): (b: seq<Byte>)
    ensures |b| == RecordSize
  {
    [r.relayChannel, r.sync, r.eventType] + ToLittleEndian(r.code, 2) + ToLittleEndian(Unsigned32(r.value), 4)
  }

  /** The struct whose bytes are b; every 9-byte buffer is the encoding of what it decodes to. */
  function Decode(b: seq<Byte>): (r: Record)
    requires |b| == RecordSize
    ensures Encode(r) == b
  {
    assert Pow256(2) == 0x1_0000;
    ToFromLittleEndian(b[3..5]);
    ToFromLittleEndian(b[5..9]);
    var r := Record(b[0], b[1], b[2], FromLittleEndian(b[3..5]), Signed32(FromLittleEndian(b[5..9])));
    assert Unsigned32(r.value) == FromLittleEndian(b[5..9]);
    assert b == b[..3] + b[3..5] + b[5..9];
    r
  }

  /** Every record survives being sent as its raw bytes. */
  lemma DecodeEncode(r: Record)
    ensures Decode(Encode(r)) == r
  {
    var b := Encode(r);
    assert Pow256(2) == 0x1_0000;
    assert b[3..5] == ToLittleEndian(r.code, 2);
    assert b[5..9] == ToLittleEndian(Unsigned32(r.value), 4);
    FromToLittleEndian(r.code, 2);
    FromToLittleEndian(Unsigned32(r.value), 4);
  }

  /**
   * Field layout: channel at byte 0, sync at 1, type at 2, code at bytes 3-4 and
   * value at bytes 5-8; a field is fixed by its own bytes and by nothing else.
   */
  lemma FieldLayout(b: seq<Byte>, c: seq<Byte>)
    requires |b| == |c| == RecordSize
    ensures b[0] == c[0] <==> Decode(b).relayChannel == Decode(c).relayChannel
    ensures b[1] == c[1] <==> Decode(b).sync == Decode(c).sync
    ensures b[2] == c[2] <==> Decode(b).eventType == Decode(c).eventType
    ensures b[3..5] == c[3..5] <==> Decode(b).code == Decode(c).code
    ensures b[5..9] == c[5..9] <==> Decode(b).value == Decode(c).value
  {
    ToFromLittleEndian(b[3..5]);
    ToFromLittleEndian(c[3..5]);
    ToFromLittleEndian(b[5..9]);
    ToFromLittleEndian(c[5..9]);
    var rb, rc := Decode(b), Decode(c);
    assert Unsigned32(rb.value) == FromLittleEndian(b[5..9]);
    assert Unsigned32(rc.value) == FromLittleEndian(c[5..9]);
  }
}
