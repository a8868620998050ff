/**
 * The byte layout of a map: tile bytes at 184-1149, the exit-door count at
 * 1156, the sentinel at 1233, and 5-byte entity records from 1234 on.
 */
module MapFormat {
  /** One element of the map's `std::vector<uint8_t>`. */
  newtype byte = b: int | 0 <= b < 256

  const TILE_DATA_START := 184
  const TILE_DATA_END := 1150
  const EXIT_DOOR_COUNT := 1156
  const SENTINEL := 1233
  const ENTITY_DATA_START := 1234
  const RECORD_SIZE := 5

  /** The map must reach the sentinel byte: the loaders read up to index 1233 unconditionally. */
  predicate HasHeader(data: seq<byte>)
  {
    |data| > SENTINEL
  }

  /** Storing the int `v` into a uint8_t keeps it modulo 256. */
  function StoreByte(v: int): (b: byte)
    ensures b as int % 256 == v % 256
  {
    (v % 256) as byte
  }

  /**
   * The sentinel rule: a byte that is neither -1 nor 1 is overwritten with -1.
   * The comparison with -1 is made after promotion to int, where a byte is
   * never -1.
   */
  function FixSentinel(b: byte): byte
  {
    if b as int != -1 && b as int != 1 then StoreByte(-1) else b
  }

  /** The sentinel therefore ends as 1 when it was 1 and as 255 otherwise. */
  lemma FixSentinelOutcome(b: byte)
    ensures FixSentinel(b) == if b == 1 then 1 else 255
    ensures FixSentinel(FixSentinel(b)) == FixSentinel(b)
  {
  }

  /** The map with its sentinel forced. */
  function WithSentinelFixed(data: seq<byte>): (r: seq<byte>)
    requires HasHeader(data)
    ensures |r| == |data| && r[SENTINEL] == FixSentinel(data[SENTINEL])
    ensures forall i :: 0 <= i < |data| && i != SENTINEL ==> r[i] == data[i]
  {
    data[SENTINEL := FixSentinel(data[SENTINEL])]
  }

  /** One decoded 5-byte entity record. */
  datatype Record = Record(entityType: int, x: real, y: real, orientation: int, mode: int)

  /** A little-endian 16-bit count of tenths: `lo + (hi << 8)` after promotion to int. */
  function LittleEndian(lo: byte, hi: byte): (v: int)
    ensures 0 <= v < 0x1_0000
    ensures v % 256 == lo as int && v / 256 == hi as int
  {
    lo as int + 256 * hi as int
  }

  /** The record at byte `i`: positions in tenths, orientation and mode reuse the y bytes. */
  function RecordAt(data: seq<byte>, i: int): Record
    requires 0 <= i && i + 4 < |data|
  {
    Record(data[i] as int,
           LittleEndian(data[i + 1], data[i + 2]) as real / 10.0,
           LittleEndian(data[i + 3], data[i + 4]) as real / 10.0,
           data[i + 3] as int,
           data[i + 4] as int)
  }

  /** Where the switch of an exit door lies: 1234 + 5 * data[1156] + 1 and + 2. */
  function ExitSwitchIndex(data: seq<byte>): int
    requires |data| > EXIT_DOOR_COUNT
  {
    ENTITY_DATA_START + RECORD_SIZE * data[EXIT_DOOR_COUNT] as int + 1
  }

  /** The extra bytes createEntity reads for a record of type `t` are inside the map. */
  predicate SwitchBytesPresent(data: seq<byte>, t: int)
    requires |data| > EXIT_DOOR_COUNT
  {
    && (t == 3 ==> ExitSwitchIndex(data) + 1 < |data|)
    && (t == 6 || t == 8 ==> ENTITY_DATA_START + 7 < |data|)
  }

  /**
   * Every read the entity loop makes from byte `i` on is in bounds: each record
   * it reaches has all five bytes and the switch bytes its type needs.
   */
  predicate StreamOk(data: seq<byte>, i: nat)
    requires |data| > EXIT_DOOR_COUNT
    decreases |data| - i
  {
    i >= |data| || data[i] == 0 ||
    (i + 4 < |data| && SwitchBytesPresent(data, data[i] as int) && StreamOk(data, i + RECORD_SIZE))
  }

  /** The records the loop visits from byte `i`: it stops at the end or at the first type byte 0. */
  function Records(data: seq<byte>, i: nat): seq<Record>
    requires |data| > EXIT_DOOR_COUNT && StreamOk(data, i)
    decreases |data| - i
  {
    if i >= |data| || data[i] == 0 then []
    else [RecordAt(data, i)] + Records(data, i + RECORD_SIZE)
  }

  /**
   * Record k of the stream is the one at byte i + 5k, it has a nonzero type
   * with its switch bytes in the map, and the stream ends where the next
   * record would start past the end or with type byte 0.
   */
  lemma {:induction false} RecordsLayout(data: seq<byte>, i: nat)
    requires |data| > EXIT_DOOR_COUNT && StreamOk(data, i)
    ensures var rs := Records(data, i);
      && (forall k :: 0 <= k < |rs| ==>
            i + RECORD_SIZE * k + 4 < |data| && rs[k] == RecordAt(data, i + RECORD_SIZE * k) &&
            rs[k].entityType != 0 && SwitchBytesPresent(data, rs[k].entityType))
      && (i + RECORD_SIZE * |rs| >= |data| || data[i + RECORD_SIZE * |rs|] == 0)
    decreases |data| - i
  {
    if i >= |data| || data[i] == 0 {
    } else {
      RecordsLayout(data, i + RECORD_SIZE);
      var rs := Records(data, i);
      var tail := Records(data, i + RECORD_SIZE);
      assert rs == [RecordAt(data, i)] + tail;
      forall k | 0 <= k < |rs|
        ensures i + RECORD_SIZE * k + 4 < |data| && rs[k] == RecordAt(data, i + RECORD_SIZE * k) &&
                rs[k].entityType != 0 && SwitchBytesPresent(data, rs[k].entityType)
      {
        if k > 0 {
          assert rs[k] == tail[k - 1];
          assert i + RECORD_SIZE + RECORD_SIZE * (k - 1) == i + RECORD_SIZE * k;
        }
      }
      assert i + RECORD_SIZE + RECORD_SIZE * |tail| == i + RECORD_SIZE * |rs|;
    }
  }

  /** One step of the loop: the record at a nonzero type byte heads the rest. */
  lemma RecordsStep(data: seq<byte>, i: nat)
    requires |data| > EXIT_DOOR_COUNT && StreamOk(data, i)
    requires i < |data| && data[i] != 0
    ensures i + 4 < |data| && StreamOk(data, i + RECORD_SIZE)
    ensures SwitchBytesPresent(data, data[i] as int)
    ensures Records(data, i) == [RecordAt(data, i)] + Records(data, i + RECORD_SIZE)
  {
  }

  /** The sentinel lies before the records, so forcing it changes neither the records nor their bounds. */
  lemma {:induction false} SentinelLeavesRecords(data: seq<byte>, i: nat)
    requires HasHeader(data) && i >= ENTITY_DATA_START && StreamOk(data, i)
    ensures StreamOk(WithSentinelFixed(data), i)
    ensures Records(WithSentinelFixed(data), i) == Records(data, i)
    decreases |data| - i
  {
    var d := WithSentinelFixed(data);
    if i >= |data| || data[i] == 0 {
    } else {
      SentinelLeavesRecords(data, i + RECORD_SIZE);
      assert RecordAt(d, i) == RecordAt(data, i);
    }
  }
}
