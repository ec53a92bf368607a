/**
 * The WAV writer of the audio trimmer window: a 44-byte zero placeholder is
 * written, the samples are quantised to 16-bit PCM and appended little-endian,
 * and the stream is rewound and the placeholder overwritten with the RIFF/WAVE
 * header (a PCM `fmt ` chunk and a `data` chunk, as in chapter 3 of the
 * Multimedia Programming Interface and Data Specifications 1.0).
 *
 * The file is an in-memory byte buffer with a write position.
 */
module WavWriter {
  import opened LittleEndian
  import opened SilenceTrim
  import ArrayCopy

  /** Size of the placeholder and of the header that replaces it. */
  const HeaderSize: nat := 44

  /** The factor that scales a sample in [-1, 1] to a 16-bit value. */
  const RescaleFactor: int := 32767

  // ---------------------------------------------------------------------
  // Quantisation
  // ---------------------------------------------------------------------

  /** A C# cast of a real to an integer type: truncation toward zero. */
  function Truncate(x: real): (n: int)
    ensures x >= 0.0 ==> 0 <= n && n as real <= x < n as real + 1.0
    ensures x < 0.0 ==> n <= 0 && n as real - 1.0 < x <= n as real
  {
    if x >= 0.0 then x.Floor else -((-x).Floor)
  }

  /** Every sample lies in [-1, 1]. */
  predicate InRange(samples: seq<real>)
  {
    forall k :: 0 <= k < |samples| ==> -1.0 <= samples[k] <= 1.0
  }

  /** `(short)(sample * 32767)`: the 16-bit value a sample is written as. */
  function Quantise(sample: real): (q: int)
    requires -1.0 <= sample <= 1.0
    ensures -32767 <= q <= 32767
    ensures sample >= 0.0 ==> q as real <= sample * 32767.0 < q as real + 1.0
    ensures sample < 0.0 ==> q as real - 1.0 < sample * 32767.0 <= q as real
  {
    Truncate(sample * RescaleFactor as real)
  }

  /** Full scale maps to +/-32767 (not -32768) and silence to 0. */
  lemma QuantiseEndpoints()
    ensures Quantise(1.0) == 32767
    ensures Quantise(-1.0) == -32767
    ensures Quantise(0.0) == 0
  {
  }

  /** Truncation is symmetric: negating a sample negates its quantised value. */
  lemma QuantiseOdd(sample: real)
    requires -1.0 <= sample <= 1.0
    ensures Quantise(-sample) == -Quantise(sample)
  {
  }

  /** Louder samples never quantise to smaller values. */
  lemma QuantiseMonotone(a: real, b: real)
    requires -1.0 <= a <= b <= 1.0
    ensures Quantise(a) <= Quantise(b)
  {
  }

  /** The quantised values of all samples, in order. */
  function QuantiseAll(samples: seq<real>): (qs: seq<int>)
    requires InRange(samples)
    ensures |qs| == |samples|
    ensures forall k :: 0 <= k < |samples| ==> qs[k] == Quantise(samples[k])
  {
    if samples == [] then [] else [Quantise(samples[0])] + QuantiseAll(samples[1..])
  }

  // ---------------------------------------------------------------------
  // The PCM16 payload
  // ---------------------------------------------------------------------

  /** The payload: two little-endian bytes per quantised sample, in input order. */
  function Payload(samples: seq<real>): (bytes: seq<byte>)
    requires InRange(samples)
    ensures |bytes| == 2 * |samples|
  {
    if samples == [] then [] else ToBytes(Quantise(samples[0]), 2) + Payload(samples[1..])
  }

  /** Bytes 2k and 2k+1 of the payload are the low and high bytes of sample k. */
  lemma {:induction false} PayloadAt(samples: seq<real>, k: nat)
    requires InRange(samples) && k < |samples|
    ensures Payload(samples)[2 * k] == ToBytes(Quantise(samples[k]), 2)[0]
    ensures Payload(samples)[2 * k + 1] == ToBytes(Quantise(samples[k]), 2)[1]
  {
    if k > 0 {
      PayloadAt(samples[1..], k - 1);
      assert samples[1..][k - 1] == samples[k];
      ghost var rest := Payload(samples[1..]);
      assert Payload(samples) == ToBytes(Quantise(samples[0]), 2) + rest;
      assert Payload(samples)[2 * k] == rest[2 * (k - 1)];
      assert Payload(samples)[2 * k + 1] == rest[2 * (k - 1) + 1];
    }
  }

  /** Reads a payload back as 16-bit values, two bytes at a time. */
  function DecodePayload(bytes: seq<byte>): (values: seq<int>)
    requires |bytes| % 2 == 0
    ensures |values| == |bytes| / 2
  {
    if bytes == [] then [] else [FromBytes16(bytes[..2])] + DecodePayload(bytes[2..])
  }

  /** Decoding the payload gives back exactly the quantised samples. */
  lemma {:induction false} PayloadRoundTrip(samples: seq<real>)
    requires InRange(samples)
    ensures DecodePayload(Payload(samples)) == QuantiseAll(samples)
  {
    if samples != [] {
      var p := Payload(samples);
      assert p[..2] == ToBytes(Quantise(samples[0]), 2);
      assert p[2..] == Payload(samples[1..]);
      Bytes16RoundTrip(Quantise(samples[0]));
      PayloadRoundTrip(samples[1..]);
    }
  }

  // ---------------------------------------------------------------------
  // The file stream
  // ---------------------------------------------------------------------

  /** The bytes of a stream after writing `data` at position `pos`. */
  function Overwrite(bytes: seq<byte>, pos: nat, data: seq<byte>): (r: seq<byte>)
    requires pos <= |bytes|
    ensures |r| == if pos + |data| <= |bytes| then |bytes| else pos + |data|
  {
    bytes[..pos] + data + if pos + |data| <= |bytes| then bytes[pos + |data|..] else []
  }

  /** Writing at the end of a stream appends. */
  lemma OverwriteAtEnd(bytes: seq<byte>, data: seq<byte>)
    ensures Overwrite(bytes, |bytes|, data) == bytes + data
  {
    if data != [] {
      assert bytes[..|bytes|] == bytes;
    }
  }

  /** `n` zero bytes. */
  function Zeros(n: nat): (z: seq<byte>)
    ensures |z| == n && forall k :: 0 <= k < n ==> z[k] == 0
  {
    seq(n, _ => 0)
  }

  /** A FileStream opened with FileMode.Create: its bytes and its write position. */
  class FileStream {
    var bytes: seq<byte>
    var position: nat

    ghost predicate Valid()
      reads this
    {
      position <= |bytes|
    }

    /** A new, empty file. */
    constructor ()
      ensures Valid() && bytes == [] && position == 0
    {
      bytes := [];
      position := 0;
    }

    function Length(): (n: nat)
      reads this
      ensures n == |bytes|
    {
      |bytes|
    }

    /** Writes one byte at the position and advances past it. */
    method WriteByte(b: byte)
      requires Valid()
      modifies this
      ensures Valid()
      ensures bytes == Overwrite(old(bytes), old(position), [b])
      ensures position == old(position) + 1
    {
      bytes := Overwrite(bytes, position, [b]);
      position := position + 1;
    }

    /** Writes the first `count` bytes of `buffer` at the position and advances past them. */
    method Write(buffer: seq<byte>, count: nat)
      requires Valid() && count <= |buffer|
      modifies this
      ensures Valid()
      ensures bytes == Overwrite(old(bytes), old(position), buffer[..count])
      ensures position == old(position) + count
    {
      bytes := Overwrite(bytes, position, buffer[..count]);
      position := position + count;
    }

    /** Seeks to `offset` from the beginning. */
    method Seek(offset: nat)
      requires Valid() && offset <= |bytes|
      modifies this
      ensures Valid() && bytes == old(bytes) && position == offset
    {
      position := offset;
    }
  }

  /** Writing right after the part already rewritten extends it and keeps the rest. */
  lemma OverwriteNext(written: seq<byte>, data: seq<byte>, tail: seq<byte>)
    requires |written| + |data| <= |tail|
    ensures Overwrite(written + tail[|written|..], |written|, data) == written + data + tail[|written| + |data|..]
  {
    var buf := written + tail[|written|..];
    assert buf[..|written|] == written;
    assert buf[|written| + |data|..] == tail[|written| + |data|..];
  }

  /**
   * One write of WriteHeader over the placeholder: the first `count` bytes of
   * `buffer` land right after the `written` bytes already rewritten, and the
   * old contents `tail` stay from the new position on.
   */
  method WriteOver(fs: FileStream, buffer: seq<byte>, count: nat, ghost written: seq<byte>, ghost tail: seq<byte>)
    requires fs.Valid() && count <= |buffer| && fs.position + count <= |tail|
    requires fs.bytes == written + tail[fs.position..] && fs.position == |written|
    modifies fs
    ensures fs.Valid() && fs.position == old(fs.position) + count
    ensures fs.bytes == written + buffer[..count] + tail[fs.position..]
  {
    OverwriteNext(written, buffer[..count], tail);
    fs.Write(buffer, count);
  }

  /** CreateEmpty: a new file holding the 44-byte zero placeholder, positioned after it. */
  method CreateEmpty() returns (fs: FileStream)
    ensures fresh(fs) && fs.Valid()
    ensures fs.bytes == Zeros(HeaderSize) && fs.position == HeaderSize
  {
    fs := new FileStream();
    var emptyByte: byte := 0;
    for i := 0 to HeaderSize
      invariant fs.Valid() && fs.bytes == Zeros(i) && fs.position == i
    {
      fs.WriteByte(emptyByte);
    }
  }

  /**
   * The conversion loop of ConvertAndWrite: quantises every sample into a
   * short array and puts the two bytes of each at offsets 2i and 2i+1 of a
   * byte array.
   */
  method Convert(samples: seq<real>) returns (bytes: seq<byte>)
    requires InRange(samples)
    ensures bytes == Payload(samples)
  {
    var intData := new int[|samples|];
    var bytesData := new byte[|samples| * 2];
    ghost var payload := Payload(samples);
    for i := 0 to |samples|
      modifies intData, bytesData
      invariant forall k :: 0 <= k < i ==> intData[k] == Quantise(samples[k])
      invariant forall k :: 0 <= k < 2 * i ==> bytesData[k] == payload[k]
    {
      var q := Truncate(samples[i] * RescaleFactor as real);
      assert q == Quantise(samples[i]);
      intData[i] := q;
      var byteArr := ToBytes(q, 2);
      PayloadAt(samples, i);
      ArrayCopy.Copy(byteArr, 0, bytesData, i * 2, 2);
    }
    bytes := bytesData[..];
  }

  /** ConvertAndWrite: converts the samples and writes the bytes at the stream's position. */
  method ConvertAndWrite(fs: FileStream, samples: seq<real>)
    requires fs.Valid() && InRange(samples)
    modifies fs
    ensures fs.Valid()
    ensures fs.bytes == Overwrite(old(fs.bytes), old(fs.position), Payload(samples))
    ensures fs.position == old(fs.position) + 2 * |samples|
  {
    var bytesData := Convert(samples);
    fs.Write(bytesData, |bytesData|);
    assert bytesData[..|bytesData|] == bytesData;
  }

  // ---------------------------------------------------------------------
  // The header
  // ---------------------------------------------------------------------

  /** The UTF-8 bytes of the four-letter tags the header writes. */
  const RiffTag: seq<byte> := [0x52, 0x49, 0x46, 0x46]   // "RIFF"
  const WaveTag: seq<byte> := [0x57, 0x41, 0x56, 0x45]   // "WAVE"
  const FmtTag: seq<byte> := [0x66, 0x6d, 0x74, 0x20]    // "fmt "
  const DataTag: seq<byte> := [0x64, 0x61, 0x74, 0x61]   // "data"

  /** Bytes per second of 16-bit audio: rate times channels times two. */
  function ByteRate(channels: int, hz: int): (rate: int)
  {
    hz * channels * 2
  }

  /** Bytes of 16-bit audio data as the header declares them: samples times channels times two. */
  function DataSize(channels: int, samples: int): (size: int)
  {
    samples * channels * 2
  }

  /**
   * The canonical 44-byte header of a PCM file of `fileLength` bytes holding
   * `samples` samples of `channels` channels at `hz` samples per second, field
   * by field: the RIFF descriptor ("RIFF", file length - 8, "WAVE"), the
   * `fmt ` sub-chunk (its size 16, format 1 for PCM, channels, rate, byte
   * rate, block alignment, 16 bits per sample) and the head of the `data`
   * sub-chunk ("data", payload size). Integers are little-endian and keep
   * only their low 4 or 2 bytes.
   */
  function HeaderBytes(fileLength: int, channels: int, hz: int, samples: int): (h: seq<byte>)
    ensures |h| == HeaderSize
  {
    RiffTag + ToBytes(fileLength - 8, 4) + WaveTag
    + FmtTag + ToBytes(16, 4) + ToBytes(1, 2) + ToBytes(channels, 2) + ToBytes(hz, 4)
    + ToBytes(ByteRate(channels, hz), 4) + ToBytes(channels * 2, 2) + ToBytes(16, 2)
    + DataTag + ToBytes(DataSize(channels, samples), 4)
  }

  /** The first three header writes: "RIFF", the length of the stream minus 8, "WAVE". */
  method WriteRiffChunk(fs: FileStream, ghost tail: seq<byte>)
    requires fs.Valid() && HeaderSize <= |tail|
    requires fs.bytes == tail && fs.position == 0
    modifies fs
    ensures fs.Valid() && fs.position == 12
    ensures fs.bytes == RiffTag + ToBytes(|tail| - 8, 4) + WaveTag + tail[fs.position..]
  {
    ghost var written: seq<byte> := [];
    var riff := RiffTag;
    WriteOver(fs, riff, 4, written, tail);
    assert written + riff[..4] == riff;
    written := riff;

    var chunkSize := ToBytes(fs.Length() - 8, 8);
    WriteOver(fs, chunkSize, 4, written, tail);
    ToBytesPrefix(|tail| - 8, 8, 4);
    written := written + ToBytes(|tail| - 8, 4);

    var wave := WaveTag;
    WriteOver(fs, wave, 4, written, tail);
  }

  /** The first four writes of the `fmt ` sub-chunk: its tag, its size, the format and the channel count. */
  method WriteFormatHead(fs: FileStream, channels: int, ghost written: seq<byte>, ghost tail: seq<byte>)
    requires fs.Valid() && fs.position + 12 <= |tail|
    requires fs.bytes == written + tail[fs.position..] && fs.position == |written|
    modifies fs
    ensures fs.Valid() && fs.position == old(fs.position) + 12
    ensures fs.bytes == written + FmtTag + ToBytes(16, 4) + ToBytes(1, 2) + ToBytes(channels, 2)
      + tail[fs.position..]
  {
    ghost var done := written;
    var fmt := FmtTag;
    WriteOver(fs, fmt, 4, done, tail);
    done := done + fmt;

    var subChunk1 := ToBytes(16, 4);
    WriteOver(fs, subChunk1, 4, done, tail);
    done := done + subChunk1;

    var one := 1;
    var audioFormat := ToBytes(one, 2);
    WriteOver(fs, audioFormat, 2, done, tail);
    done := done + audioFormat;

    var numChannels := ToBytes(channels, 4);
    WriteOver(fs, numChannels, 2, done, tail);
    ToBytesPrefix(channels, 4, 2);
  }

  /**
   * The last four writes of the `fmt ` sub-chunk: the sample rate, the byte
   * rate, the block alignment (cast to 16 bits) and the bits per sample.
   */
  method WriteFormatRates(fs: FileStream, channels: int, hz: int, ghost written: seq<byte>, ghost tail: seq<byte>)
    requires fs.Valid() && fs.position + 12 <= |tail|
    requires fs.bytes == written + tail[fs.position..] && fs.position == |written|
    modifies fs
    ensures fs.Valid() && fs.position == old(fs.position) + 12
    ensures fs.bytes == written + ToBytes(hz, 4) + ToBytes(ByteRate(channels, hz), 4)
      + ToBytes(channels * 2, 2) + ToBytes(16, 2) + tail[fs.position..]
  {
    ghost var done := written;
    var sampleRate := ToBytes(hz, 4);
    WriteOver(fs, sampleRate, 4, done, tail);
    done := done + sampleRate;

    var byteRate := ToBytes(ByteRate(channels, hz), 4);
    WriteOver(fs, byteRate, 4, done, tail);
    done := done + byteRate;

    var blockAlign := (channels * 2) % 65536;
    var blockAlignBytes := ToBytes(blockAlign, 2);
    WriteOver(fs, blockAlignBytes, 2, done, tail);
    ToBytesMod(channels * 2, 2);
    done := done + ToBytes(channels * 2, 2);

    var bps := 16;
    var bitsPerSample := ToBytes(bps, 2);
    WriteOver(fs, bitsPerSample, 2, done, tail);
  }

  /** The last two header writes, after the `written` bytes: "data" and the declared payload size. */
  method WriteDataChunkHead(fs: FileStream, channels: int, samples: int, ghost written: seq<byte>, ghost tail: seq<byte>)
    requires fs.Valid() && fs.position + 8 <= |tail|
    requires fs.bytes == written + tail[fs.position..] && fs.position == |written|
    modifies fs
    ensures fs.Valid() && fs.position == old(fs.position) + 8
    ensures fs.bytes == written + DataTag + ToBytes(DataSize(channels, samples), 4) + tail[fs.position..]
  {
    var datastring := DataTag;
    WriteOver(fs, datastring, 4, written, tail);

    var subChunk2 := ToBytes(DataSize(channels, samples), 4);
    WriteOver(fs, subChunk2, 4, written + datastring, tail);
  }

  /**
   * WriteHeader: rewinds the stream and writes the thirteen header fields in
   * order over the placeholder; the chunk size is the stream's length minus 8.
   */
  method WriteHeader(fs: FileStream, clip: Clip)
    requires fs.Valid() && |fs.bytes| >= HeaderSize
    modifies fs
    ensures fs.Valid() && fs.position == HeaderSize
    ensures fs.bytes == HeaderBytes(old(|fs.bytes|), clip.channels, clip.frequency, |clip.samples|)
                        + old(fs.bytes)[HeaderSize..]
  {
    var hz := clip.frequency;
    var channels := clip.channels;
    var samples := |clip.samples|;
    ghost var tail := fs.bytes;

    fs.Seek(0);
    WriteRiffChunk(fs, tail);
    ghost var riff := RiffTag + ToBytes(|tail| - 8, 4) + WaveTag;
    WriteFormatHead(fs, channels, riff, tail);
    ghost var head := riff + FmtTag + ToBytes(16, 4) + ToBytes(1, 2) + ToBytes(channels, 2);
    WriteFormatRates(fs, channels, hz, head, tail);
    ghost var format := head + ToBytes(hz, 4) + ToBytes(ByteRate(channels, hz), 4)
      + ToBytes(channels * 2, 2) + ToBytes(16, 2);
    WriteDataChunkHead(fs, channels, samples, format, tail);
  }

  /** The file Save produces for a clip: the header, then the payload. */
  function WavFile(clip: Clip): (file: seq<byte>)
    requires InRange(clip.samples)
    ensures |file| == HeaderSize + 2 * |clip.samples|
  {
    HeaderBytes(HeaderSize + 2 * |clip.samples|, clip.channels, clip.frequency, |clip.samples|)
    + Payload(clip.samples)
  }

  /**
   * Save: creates the placeholder file, appends the payload and overwrites
   * the placeholder with the header.
   */
  method Save(clip: Clip) returns (fs: FileStream)
    requires InRange(clip.samples)
    ensures fresh(fs) && fs.Valid()
    ensures fs.bytes == WavFile(clip)
  {
    fs := CreateEmpty();
    ConvertAndWrite(fs, clip.samples);
    SaveLayout(clip);
    WriteHeader(fs, clip);
  }

  /** The placeholder followed by the payload, its header written over it, is the saved file. */
  lemma SaveLayout(clip: Clip)
    requires InRange(clip.samples)
    ensures var before := Overwrite(Zeros(HeaderSize), HeaderSize, Payload(clip.samples));
      && |before| >= HeaderSize
      && HeaderBytes(|before|, clip.channels, clip.frequency, |clip.samples|) + before[HeaderSize..]
         == WavFile(clip)
  {
    var payload := Payload(clip.samples);
    var before := Overwrite(Zeros(HeaderSize), HeaderSize, payload);
    OverwriteAtEnd(Zeros(HeaderSize), payload);
    assert before == Zeros(HeaderSize) + payload;
    assert before[HeaderSize..] == payload;
    assert |before| == HeaderSize + 2 * |clip.samples|;
  }
}
