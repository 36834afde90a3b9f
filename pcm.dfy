/** `decodeAudioData`: base64 text from the speech service, decoded by
    `atob` into bytes, read as little-endian signed 16-bit PCM (mono,
    24000 Hz), each sample scaled by 1/32768 into an audio buffer.
    Samples are exact `real`s here; the IEEE rounding of the division is
    not modelled. */
module Pcm {
  import opened Results
  import opened Base64

  const SampleRate: nat := 24000
  const NumberOfChannels: nat := 1
  const DecodeFailure: string := "Failed to decode audio data."

  type Int16 = x: int | -32768 <= x <= 32767

  /** A decoded Web Audio buffer: channel count, sample rate and the samples
      of its one channel. It is never changed once produced. */
  datatype AudioBuffer = AudioBuffer(numberOfChannels: nat, sampleRate: nat, channelData: seq<real>)
  {
    /** `duration` in seconds; 0 for a buffer whose sample rate is 0. */
    function Duration(): real {
      if sampleRate == 0 then 0.0 else |channelData| as real / sampleRate as real
    }

    /** What every buffer the decoder produces satisfies. */
    predicate WellFormed() {
      numberOfChannels == NumberOfChannels && sampleRate == SampleRate && |channelData| >= 1 &&
      forall i :: 0 <= i < |channelData| ==> -1.0 <= channelData[i] <= 32767.0 / 32768.0
    }
  }

  /** An `Int16Array` element read from two bytes, low byte first, as a
      two's-complement value. */
  function Int16LE(lo: Byte, hi: Byte): (x: Int16)
    ensures x < 0 <==> hi >= 128
  {
    var u := lo + 256 * hi;
    if u >= 32768 then u - 65536 else u
  }

  /** The two bytes, low byte first, that store `x` in 16-bit two's complement. */
  function Int16Bytes(x: Int16): (b: seq<Byte>)
    ensures |b| == 2 && Int16LE(b[0], b[1]) == x
  {
    var u := if x < 0 then x + 65536 else x;
    [u % 256, u / 256]
  }

  /** Scaling of one sample into the buffer's floating-point range. */
  function ToSample(x: Int16): real {
    x as real / 32768.0
  }

  /** The character codes of a binary string (`charCodeAt`). */
  function Codes(s: string): (bytes: seq<Byte>)
    requires IsBinaryString(s)
    ensures |bytes| == |s|
  {
    seq(|s|, i requires 0 <= i < |s| => s[i] as int)
  }

  /** Sample `i`: the 16-bit value stored in bytes `2i` and `2i+1`, scaled. */
  function SampleAt(bytes: seq<Byte>, i: nat): real
    requires 2 * i + 1 < |bytes|
  {
    ToSample(Int16LE(bytes[2 * i], bytes[2 * i + 1]))
  }

  /** The samples of a little-endian 16-bit PCM byte sequence. */
  function PcmSamples(bytes: seq<Byte>): (samples: seq<real>)
    ensures |samples| == |bytes| / 2
  {
    seq(|bytes| / 2, i requires 0 <= i < |bytes| / 2 => SampleAt(bytes, i))
  }

  /** What `decodeAudioData` resolves to, or the error it throws. An odd byte
      count makes `new Int16Array` throw; zero frames make `createBuffer`
      throw; both are caught and rethrown as `DecodeFailure`. */
  function Decode(base64: string): Result<AudioBuffer> {
    match Atob(base64)
    case None => Err(DecodeFailure)
    case Some(binary) =>
      if |binary| % 2 != 0 then Err(DecodeFailure)
      else if |binary| / 2 == 0 then Err(DecodeFailure)
      else Ok(AudioBuffer(NumberOfChannels, SampleRate, PcmSamples(Codes(binary))))
  }

  /** `decodeAudioData` with its two index loops: the byte copy and the
      sample conversion. */
  method DecodeAudioData(base64: string) returns (r: Result<AudioBuffer>)
    ensures r == Decode(base64)
  {
    var decoded := Atob(base64);
    if decoded.None? {
      return Err(DecodeFailure);
    }
    var binaryString := decoded.value;
    var len := |binaryString|;
    var bytes := new Byte[len];
    for i := 0 to len
      modifies bytes
      invariant forall k :: 0 <= k < i ==> bytes[k] == binaryString[k] as int
    {
      bytes[i] := binaryString[i] as int;
    }
    // The Int16Array is a view of the bytes' underlying buffer; a length
    // that is not a multiple of 2 makes its construction throw.
    var pcmBytes := bytes[..];
    assert pcmBytes == Codes(binaryString);
    if len % 2 != 0 {
      return Err(DecodeFailure);
    }
    var frameCount := len / 2;
    // createBuffer throws for a length of 0.
    if frameCount == 0 {
      return Err(DecodeFailure);
    }
    var channelData := new real[frameCount];
    for i := 0 to frameCount
      invariant forall k :: 0 <= k < i ==> channelData[k] == SampleAt(pcmBytes, k)
    {
      channelData[i] := Int16LE(pcmBytes[2 * i], pcmBytes[2 * i + 1]) as real / 32768.0;
    }
    assert channelData[..] == PcmSamples(pcmBytes);
    r := Ok(AudioBuffer(NumberOfChannels, SampleRate, channelData[..]));
  }

  // ---------------------------------------------------------------------
  // Properties of the decoder

  /** Every scaled sample lies in [-1, 32767/32768]. */
  lemma ToSampleRange(x: Int16)
    ensures -1.0 <= ToSample(x) <= 32767.0 / 32768.0
    ensures ToSample(x) * 32768.0 == x as real
  {
  }

  /** On success: one channel at 24000 Hz, half as many frames as bytes,
      frame `i` read from bytes `2i` (low) and `2i+1` (high), and every
      sample in [-1, 32767/32768]. */
  lemma {:induction false} DecodeSuccess(base64: string)
    requires Decode(base64).Ok?
    ensures Atob(base64).Some?
    ensures var bytes := Codes(Atob(base64).value);
            var buffer := Decode(base64).value;
            |bytes| % 2 == 0 && |bytes| >= 2 &&
            buffer.numberOfChannels == 1 && buffer.sampleRate == 24000 &&
            |buffer.channelData| == |bytes| / 2 &&
            buffer.Duration() == (|bytes| / 2) as real / 24000.0 &&
            (forall i :: 0 <= i < |bytes| / 2 ==>
               buffer.channelData[i] * 32768.0 == Int16LE(bytes[2 * i], bytes[2 * i + 1]) as real)
    ensures Decode(base64).value.WellFormed()
  {
    var bytes := Codes(Atob(base64).value);
    var buffer := Decode(base64).value;
    forall i | 0 <= i < |buffer.channelData|
      ensures buffer.channelData[i] * 32768.0 == Int16LE(bytes[2 * i], bytes[2 * i + 1]) as real
      ensures -1.0 <= buffer.channelData[i] <= 32767.0 / 32768.0
    {
      ToSampleRange(Int16LE(bytes[2 * i], bytes[2 * i + 1]));
    }
  }

  /** Decoding fails, always with the same message, exactly when `atob`
      rejects the text or yields an odd or zero number of bytes. */
  lemma DecodeFailureCases(base64: string)
    ensures Decode(base64).Err? <==>
            Atob(base64).None? || |Atob(base64).value| % 2 == 1 || |Atob(base64).value| == 0
    ensures Decode(base64).Err? ==> Decode(base64).message == DecodeFailure
  {
  }

  /** Little-endian storage of a sequence of 16-bit samples. */
  function PcmBytes(xs: seq<Int16>): (bytes: seq<Byte>)
    ensures |bytes| == 2 * |xs|
  {
    seq(2 * |xs|, j requires 0 <= j < 2 * |xs| => Int16Bytes(xs[j / 2])[j % 2])
  }

  lemma PcmBytesAt(xs: seq<Int16>, i: nat)
    requires i < |xs|
    ensures Int16LE(PcmBytes(xs)[2 * i], PcmBytes(xs)[2 * i + 1]) == xs[i]
  {
    assert (2 * i) / 2 == i && (2 * i) % 2 == 0;
    assert (2 * i + 1) / 2 == i && (2 * i + 1) % 2 == 1;
  }

  /** The scaled samples of stored 16-bit values are those values, scaled. */
  lemma PcmSamplesOfPcmBytes(xs: seq<Int16>)
    ensures PcmSamples(PcmBytes(xs)) == seq(|xs|, i requires 0 <= i < |xs| => ToSample(xs[i]))
  {
    forall i | 0 <= i < |xs| ensures PcmSamples(PcmBytes(xs))[i] == ToSample(xs[i]) {
      PcmBytesAt(xs, i);
    }
  }

  /** Round trip: base64 of the little-endian bytes of N >= 1 samples decodes
      to a buffer holding exactly those samples, scaled by 1/32768. */
  lemma DecodeRoundTrip(xs: seq<Int16>)
    requires |xs| >= 1
    ensures Decode(Encode(PcmBytes(xs))) ==
            Ok(AudioBuffer(1, 24000, seq(|xs|, i requires 0 <= i < |xs| => ToSample(xs[i]))))
    ensures forall i :: 0 <= i < |xs| ==> Decode(Encode(PcmBytes(xs))).value.channelData[i] * 32768.0 == xs[i] as real
  {
    var bytes := PcmBytes(xs);
    AtobEncodeRoundTrip(bytes);
    var binary := BinaryString(bytes);
    assert Codes(binary) == bytes;
    PcmSamplesOfPcmBytes(xs);
    assert Decode(Encode(bytes)) == Ok(AudioBuffer(1, 24000, PcmSamples(bytes)));
    forall i | 0 <= i < |xs| ensures ToSample(xs[i]) * 32768.0 == xs[i] as real {
      ToSampleRange(xs[i]);
    }
  }

  /** The empty payload does not decode: zero frames are refused. */
  lemma EmptyPayloadFails()
    ensures Decode("") == Err(DecodeFailure)
  {
    assert RemoveWhitespace("") == "";
    assert RemovePadding("") == "";
  }
}
