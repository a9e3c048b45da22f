/** The fixed Host record and the constants both sides agree on. */
module Protocol {
  import opened Words

  const VERSION: byte := 1

  const WORKLOAD_BEGIN: byte := 0x20
  const WORKLOAD_DATA: byte := 0x21
  const WORKLOAD_COMMIT: byte := 0x22
  const TIMEOUT_RESULT: byte := 0x27
  const FILESYSTEM_REQUEST: byte := 0x40
  const FILESYSTEM_RESULT: byte := 0x41
  const MEMORY_REQUEST: byte := 0x50
  const MEMORY_RESULT: byte := 0x51
  const DIAGNOSTICS_RESULT: byte := 0x61

  const OK: u16 := 0
  const BAD_VERSION: u16 := 1
  const BAD_LENGTH: u16 := 2
  const BAD_SEQUENCE: u16 := 5
  const SERVICE_UNAVAILABLE: u16 := 6
  const BAD_CRC: u16 := 7
  const BAD_STATE: u16 := 8
  const BAD_WORKLOAD: u16 := 9
  const IO_ERROR: u16 := 10
  const NOT_FOUND: u16 := 11
  const INVALID_PATH: u16 := 12

  /** One record; the payload is the part its length field covers. */
  datatype Message = Message(version: byte, kind: byte, flags: u16, sequence: u32, status: u16, payload: seq<byte>)

  /** A record as the Host sends it. */
  function Request(kind: byte, sequence: u32, payload: seq<byte>): Message {
    Message(VERSION, kind, 0, sequence, OK, payload)
  }

  function Reply(request: Message, kind: byte, status: u16, payload: seq<byte>): Message {
    Message(VERSION, kind, 0, request.sequence, status, payload)
  }

  /** `(sequence + 1) & 0xFFFFFFFF or 1`. */
  function NextSequence(sequence: u32): u32 {
    if sequence == 0xffff_ffff then 1 else sequence + 1
  }

  // ---- arrays of words -----------------------------------------------------------

  function PackWords(words: seq<u32>): (s: seq<byte>)
    ensures |s| == 4 * |words|
  {
    if words == [] then [] else Le32(words[0]) + PackWords(words[1..])
  }

  function UnpackWords(s: seq<byte>, count: nat): (words: seq<u32>)
    requires 4 * count <= |s|
    ensures |words| == count
  {
    seq(count, i requires 0 <= i < count => Load32(s, 4 * i))
  }

  lemma {:induction false} PackedAt(words: seq<u32>, i: nat)
    requires i < |words|
    ensures PackWords(words)[4 * i..4 * i + 4] == Le32(words[i])
  {
    if i != 0 {
      PackedAt(words[1..], i - 1);
      var tail := PackWords(words[1..]);
      assert PackWords(words)[4 * i..4 * i + 4] == tail[4 * (i - 1)..4 * (i - 1) + 4];
    }
  }

  /** A structure of words survives the link. */
  lemma UnpackOfPack(words: seq<u32>)
    ensures UnpackWords(PackWords(words), |words|) == words
  {
    forall i | 0 <= i < |words|
      ensures Load32(PackWords(words), 4 * i) == words[i]
    {
      PackedAt(words, i);
      Load32OfLe32(PackWords(words), 4 * i, words[i]);
    }
  }
}
