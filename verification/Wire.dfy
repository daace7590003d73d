/** Bytes, and the big-endian integers of utils/wire.c. */
module Wire {

  type Byte = b: int | 0 <= b < 256
  type Bytes = seq<Byte>

  const MAX32 := 0x1_0000_0000
  const TOP_BIT := 0x8000_0000
  const MAX64 := 0x1_0000_0000_0000_0000

  /** nn_putl. */
  function Put32(v: nat): (b: Bytes)
    requires v < MAX32
    ensures |b| == 4
  {
    [v / 0x100_0000, v / 0x1_0000 % 0x100, v / 0x100 % 0x100, v % 0x100]
  }

  /** nn_getl. */
  function Get32(b: Bytes): (v: nat)
    requires |b| == 4
    ensures v < MAX32
  {
    b[0] as int * 0x100_0000 + b[1] as int * 0x1_0000 + b[2] as int * 0x100 + b[3] as int
  }

  lemma Get32Put32(v: nat)
    requires v < MAX32
    ensures Get32(Put32(v)) == v
  {
    var a, b := v / 0x100, v / 0x1_0000;
    assert b == a / 0x100 && v / 0x100_0000 == b / 0x100;
  }

  lemma Put32Get32(b: Bytes)
    requires |b| == 4
    ensures Put32(Get32(b)) == b
  {
    var v := Get32(b);
    assert v / 0x100 == b[0] as int * 0x1_0000 + b[1] as int * 0x100 + b[2] as int;
    assert v / 0x1_0000 == b[0] as int * 0x100 + b[1] as int;
  }

  /** nn_putll: two halves of nn_putl. */
  function Put64(v: nat): (b: Bytes)
    requires v < MAX64
    ensures |b| == 8
  {
    Put32(v / MAX32) + Put32(v % MAX32)
  }

  /** nn_getll. */
  function Get64(b: Bytes): (v: nat)
    requires |b| == 8
    ensures v < MAX64
  {
    Get32(b[..4]) * MAX32 + Get32(b[4..])
  }

  lemma Get64Put64(v: nat)
    requires v < MAX64
    ensures Get64(Put64(v)) == v
  {
    Get32Put32(v / MAX32);
    Get32Put32(v % MAX32);
    assert Put64(v)[..4] == Put32(v / MAX32) && Put64(v)[4..] == Put32(v % MAX32);
  }
}
