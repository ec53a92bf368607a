/**
 * A reader for the header WriteHeader produces: it checks the four tags and
 * reads the little-endian fields back. It is the partner against which the
 * writer's output is checked field by field.
 */
module WavReader {
  import opened Wrappers
  import opened LittleEndian
  import opened SilenceTrim
  import opened WavWriter

  /** The fields of a canonical 44-byte PCM header. */
  datatype WavFormat = WavFormat(
    chunkSize: nat,
    formatSize: nat,
    audioFormat: nat,
    channels: nat,
    sampleRate: nat,
    byteRate: nat,
    blockAlign: nat,
    bitsPerSample: nat,
    dataSize: nat)

  /** Reads the header at the front of `file`; no header when it is short or a tag is wrong. */
  function ParseHeader(file: seq<byte>): (header: Option<WavFormat>)
  {
    if |file| < HeaderSize then None
    else if file[0..4] != RiffTag || file[8..12] != WaveTag
         || file[12..16] != FmtTag || file[36..40] != DataTag then None
    else Some(WavFormat(
      FromBytes(file[4..8]), FromBytes(file[16..20]), FromBytes(file[20..22]),
      FromBytes(file[22..24]), FromBytes(file[24..28]), FromBytes(file[28..32]),
      FromBytes(file[32..34]), FromBytes(file[34..36]), FromBytes(file[40..44])))
  }

  /** 256^4 and 256^2 written out (they equal Pow256(4) and Pow256(2), by Read4 and Read2). */
  const Pow32: nat := 0x1_0000_0000
  const Pow16: nat := 0x1_0000

  /**
   * What the header records for a file of `fileLength` bytes: every field
   * keeps only the low 32 or 16 bits of the value written.
   */
  function Recorded(fileLength: int, channels: int, hz: int, samples: int): (header: WavFormat)
  {
    WavFormat((fileLength - 8) % Pow32, 16, 1, channels % Pow16, hz % Pow32,
              ByteRate(channels, hz) % Pow32, (channels * 2) % Pow16, 16,
              DataSize(channels, samples) % Pow32)
  }

  /** The last piece of a prefix, and the prefix before it. */
  lemma Unappend(f: seq<byte>, a: seq<byte>, p: seq<byte>)
    requires |a| + |p| <= |f| && f[..|a| + |p|] == a + p
    ensures f[|a|..|a| + |p|] == p && f[..|a|] == a
  {
    assert f[|a|..|a| + |p|] == f[..|a| + |p|][|a|..];
    assert f[..|a|] == f[..|a| + |p|][..|a|];
  }

  /** Each field of a written header, whatever follows it, sits at its offset. */
  lemma HeaderFields(fileLength: int, channels: int, hz: int, samples: int, rest: seq<byte>)
    ensures var f := HeaderBytes(fileLength, channels, hz, samples) + rest;
      && f[0..4] == RiffTag && f[4..8] == ToBytes(fileLength - 8, 4) && f[8..12] == WaveTag
      && f[12..16] == FmtTag && f[16..20] == ToBytes(16, 4) && f[20..22] == ToBytes(1, 2)
      && f[22..24] == ToBytes(channels, 2) && f[24..28] == ToBytes(hz, 4)
      && f[28..32] == ToBytes(ByteRate(channels, hz), 4) && f[32..34] == ToBytes(channels * 2, 2)
      && f[34..36] == ToBytes(16, 2) && f[36..40] == DataTag
      && f[40..44] == ToBytes(DataSize(channels, samples), 4)
  {
    var f := HeaderBytes(fileLength, channels, hz, samples) + rest;
    var a1 := RiffTag;
    var a2 := a1 + ToBytes(fileLength - 8, 4);
    var a3 := a2 + WaveTag;
    var a4 := a3 + FmtTag;
    var a5 := a4 + ToBytes(16, 4);
    var a6 := a5 + ToBytes(1, 2);
    var a7 := a6 + ToBytes(channels, 2);
    var a8 := a7 + ToBytes(hz, 4);
    var a9 := a8 + ToBytes(ByteRate(channels, hz), 4);
    var a10 := a9 + ToBytes(channels * 2, 2);
    var a11 := a10 + ToBytes(16, 2);
    var a12 := a11 + DataTag;
    assert f[..44] == a12 + ToBytes(DataSize(channels, samples), 4);
    Unappend(f, a12, ToBytes(DataSize(channels, samples), 4));
    Unappend(f, a11, DataTag);
    Unappend(f, a10, ToBytes(16, 2));
    Unappend(f, a9, ToBytes(channels * 2, 2));
    Unappend(f, a8, ToBytes(ByteRate(channels, hz), 4));
    Unappend(f, a7, ToBytes(hz, 4));
    Unappend(f, a6, ToBytes(channels, 2));
    Unappend(f, a5, ToBytes(1, 2));
    Unappend(f, a4, ToBytes(16, 4));
    Unappend(f, a3, FmtTag);
    Unappend(f, a2, WaveTag);
    Unappend(f, a1, ToBytes(fileLength - 8, 4));
  }

  /** A four-byte field reads back as the low 32 bits of its value. */
  lemma Read4(v: int)
    ensures FromBytes(ToBytes(v, 4)) == v % Pow32
  {
    FromToBytes(v, 4);
    assert Pow256(4) == Pow32;
  }

  /** A two-byte field reads back as the low 16 bits of its value. */
  lemma Read2(v: int)
    ensures FromBytes(ToBytes(v, 2)) == v % Pow16
  {
    FromToBytes(v, 2);
    assert Pow256(2) == Pow16;
  }

  /** Reading back any header WriteHeader lays down, whatever follows it, gives its fields. */
  lemma HeaderRoundTrip(fileLength: int, channels: int, hz: int, samples: int, rest: seq<byte>)
    ensures ParseHeader(HeaderBytes(fileLength, channels, hz, samples) + rest)
            == Some(Recorded(fileLength, channels, hz, samples))
  {
    var f := HeaderBytes(fileLength, channels, hz, samples) + rest;
    HeaderFields(fileLength, channels, hz, samples, rest);
    Read4(fileLength - 8);
    Read4(16);
    Read2(1);
    Read2(channels);
    Read4(hz);
    Read4(ByteRate(channels, hz));
    Read2(channels * 2);
    Read2(16);
    Read4(DataSize(channels, samples));
  }

  // ---------------------------------------------------------------------
  // The saved file
  // ---------------------------------------------------------------------

  /**
   * From offset 44 on, the saved file holds the payload (which decodes to
   * the quantised samples in input order, by PayloadRoundTrip).
   */
  lemma WavFileLayout(clip: Clip)
    requires InRange(clip.samples)
    ensures WavFile(clip)[HeaderSize..] == Payload(clip.samples)
  {
    var h := HeaderBytes(HeaderSize + 2 * |clip.samples|, clip.channels, clip.frequency, |clip.samples|);
    assert (h + Payload(clip.samples))[|h|..] == Payload(clip.samples);
  }

  /**
   * The header of the saved file reads back with the tags in place, a chunk
   * size of 36 + 2n (the file length minus 8) and the clip's channels and rate.
   */
  lemma WavFileHeader(clip: Clip)
    requires InRange(clip.samples)
    ensures ParseHeader(WavFile(clip))
            == Some(Recorded(HeaderSize + 2 * |clip.samples|, clip.channels, clip.frequency, |clip.samples|))
    ensures ParseHeader(WavFile(clip)).value.chunkSize == (36 + 2 * |clip.samples|) % Pow32
    ensures ParseHeader(WavFile(clip)).value.formatSize == 16
    ensures ParseHeader(WavFile(clip)).value.audioFormat == 1
    ensures ParseHeader(WavFile(clip)).value.bitsPerSample == 16
  {
    var n := |clip.samples|;
    var payload := Payload(clip.samples);
    assert WavFile(clip) == HeaderBytes(HeaderSize + 2 * n, clip.channels, clip.frequency, n) + payload;
    HeaderRoundTrip(HeaderSize + 2 * n, clip.channels, clip.frequency, n, payload);
    var r := Recorded(HeaderSize + 2 * n, clip.channels, clip.frequency, n);
    assert r.chunkSize == (36 + 2 * n) % Pow32;
  }

  /**
   * The data size the header declares is the length of the payload that
   * follows it exactly when the clip has one channel (for a non-empty clip
   * whose declared size fits in 32 bits): the header counts
   * samples times channels times two bytes, the payload two bytes per sample.
   */
  lemma DataSizeMatchesPayloadIffMono(clip: Clip)
    requires InRange(clip.samples) && |clip.samples| > 0
    requires 0 <= clip.channels && DataSize(clip.channels, |clip.samples|) < Pow32
    ensures ParseHeader(WavFile(clip)).Some?
    ensures ParseHeader(WavFile(clip)).value.dataSize == |WavFile(clip)| - HeaderSize
            <==> clip.channels == 1
  {
    var n := |clip.samples|;
    var d := DataSize(clip.channels, n);
    MonoIff(clip.channels, n);
    SmallMod(d);
    WavFileHeader(clip);
    WavFileLayout(clip);
    assert ParseHeader(WavFile(clip)).value.dataSize == d;
    assert |WavFile(clip)| - HeaderSize == 2 * n;
  }

  lemma SmallMod(v: int)
    requires 0 <= v < Pow32
    ensures v % Pow32 == v
  {
  }

  /** n samples of c channels take 2n bytes exactly when c is one. */
  lemma MonoIff(channels: int, samples: int)
    requires samples > 0 && channels >= 0
    ensures DataSize(channels, samples) == 2 * samples <==> channels == 1
  {
    if channels == 0 {
      assert DataSize(channels, samples) == 0;
    } else if channels >= 2 {
      assert DataSize(channels, samples) == 2 * samples + 2 * samples * (channels - 1);
      assert samples * (channels - 1) > 0;
    }
  }

  /** Saving a clip with no samples writes the bare 44-byte header. */
  lemma EmptyClipFile(clip: Clip)
    requires clip.samples == []
    ensures |WavFile(clip)| == HeaderSize
    ensures ParseHeader(WavFile(clip)).Some?
    ensures ParseHeader(WavFile(clip)).value.chunkSize == 36
    ensures ParseHeader(WavFile(clip)).value.dataSize == 0
  {
    WavFileLayout(clip);
    WavFileHeader(clip);
  }
}
