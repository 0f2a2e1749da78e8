/**
 The PS5 audio driver: the sample-count quantiser, the format and spec
 normalisation of `PS5AUDIO_OpenDevice`, the mixing buffer carved into
 `NUM_BUFFERS` slices, the ring that `PS5AUDIO_PlayDevice` and
 `PS5AUDIO_GetDeviceBuf` walk, and `PS5AUDIO_CloseDevice`.
 */
module Audio {
  import opened Common

  // ---------------------------------------------------------------------
  // Sample count
  // ---------------------------------------------------------------------

  /** `PS5AUDIO_SampleSize`: the largest of the supported counts 256, 512,
      ..., 2048 that does not exceed the request, or 256 when the request
      is below every one of them. */
  function SampleSize(size: u16): (r: u16)
    ensures 256 <= r <= 2048 && r % 256 == 0
    ensures r <= size || r == 256
    ensures size < r + 256 || r == 2048
  {
    if size >= 2048 then 2048
    else if size >= 1792 then 1792
    else if size >= 1536 then 1536
    else if size >= 1280 then 1280
    else if size >= 1024 then 1024
    else if size >= 768 then 768
    else if size >= 512 then 512
    else 256
  }

  function Clamp(x: int, lo: int, hi: int): int
    requires lo <= hi
  {
    if x < lo then lo else if x > hi then hi else x
  }

  /** The quantiser is the request rounded down to a multiple of 256 and
      clamped to [256, 2048]. */
  lemma SampleSizeIsClampedRoundDown(size: u16)
    ensures SampleSize(size) as int == Clamp(256 * (size as int / 256), 256, 2048)
  {
    var s := size as int;
    var q := s / 256;
    assert s == 256 * q + s % 256;
  }

  /** A larger request never gets a smaller count. */
  lemma SampleSizeMonotone(a: u16, b: u16)
    requires a <= b
    ensures SampleSize(a) <= SampleSize(b)
  {
  }

  /** Quantising a quantised count changes nothing. */
  lemma SampleSizeIdempotent(size: u16)
    ensures SampleSize(SampleSize(size)) == SampleSize(size)
  {
  }

  /** Every count is a multiple of 64 samples, as the buffer alignment of
      the mixing buffer needs. */
  lemma SampleSizeAligned(size: u16)
    ensures SampleSize(size) % 64 == 0
  {
    var r := SampleSize(size);
    assert r == 256 * (r / 256);
  }

  // ---------------------------------------------------------------------
  // Formats
  // ---------------------------------------------------------------------

  /** `AUDIO_S16LSB` and `AUDIO_F32LSB` from SDL's audio header. */
  const AUDIO_S16LSB: u16 := 0x8010
  const AUDIO_F32LSB: u16 := 0x8120

  predicate Supported(f: u16)
  {
    f == AUDIO_S16LSB || f == AUDIO_F32LSB
  }

  /** The `sceAudioOutOpen` data-format parameters. */
  const FORMAT_S16_MONO: nat := 0
  const FORMAT_S16_STEREO: nat := 1
  const FORMAT_FLOAT_MONO: nat := 3
  const FORMAT_FLOAT_STEREO: nat := 4

  /** The output parameter for a supported format and a requested channel
      count: mono only for exactly one channel. */
  function OutParam(f: u16, channels: u8): (p: nat)
    requires Supported(f)
  {
    if f == AUDIO_S16LSB then (if channels == 1 then FORMAT_S16_MONO else FORMAT_S16_STEREO)
    else (if channels == 1 then FORMAT_FLOAT_MONO else FORMAT_FLOAT_STEREO)
  }

  /** The channel count the device ends up with: 1 if one was requested,
      2 otherwise. */
  function Channels(requested: u8): (c: u8)
    ensures c == 1 <==> requested == 1
    ensures c == 1 || c == 2
  {
    if requested == 1 then 1 else 2
  }

  /** The sample format and channel count an output parameter stands for. */
  function ParamFormat(p: nat): u16
  {
    if p == FORMAT_S16_MONO || p == FORMAT_S16_STEREO then AUDIO_S16LSB else AUDIO_F32LSB
  }

  function ParamChannels(p: nat): u8
  {
    if p == FORMAT_S16_MONO || p == FORMAT_FLOAT_MONO then 1 else 2
  }

  /** The output parameter carries exactly the chosen format and the
      normalised channel count, and nothing else is ever passed. */
  lemma OutParamRoundTrip(f: u16, channels: u8)
    requires Supported(f)
    ensures ParamFormat(OutParam(f, channels)) == f
    ensures ParamChannels(OutParam(f, channels)) == Channels(channels)
    ensures OutParam(f, channels) in {FORMAT_S16_MONO, FORMAT_S16_STEREO, FORMAT_FLOAT_MONO, FORMAT_FLOAT_STEREO}
  {
  }

  /** The format iteration visits the candidates up to the first 0 entry,
      which ends SDL's list. */
  function ListEnd(c: seq<u16>, i: nat): (n: nat)
    requires i <= |c|
    ensures i <= n <= |c|
    ensures n < |c| ==> c[n] == 0
    ensures forall j :: i <= j < n ==> c[j] != 0
    decreases |c| - i
  {
    if i == |c| || c[i] == 0 then i else ListEnd(c, i + 1)
  }

  /** The index of the format the open loop settles on: the first visited
      candidate that is supported. */
  function FirstSupported(c: seq<u16>, i: nat): (r: Option<nat>)
    requires i <= |c|
    ensures r.Some? ==> i <= r.value < ListEnd(c, i) && Supported(c[r.value])
    ensures r.Some? ==> forall j :: i <= j < r.value ==> !Supported(c[j])
    ensures r.None? <==> forall j :: i <= j < ListEnd(c, i) ==> !Supported(c[j])
    decreases |c| - i
  {
    if i == |c| || c[i] == 0 then None
    else if Supported(c[i]) then Some(i)
    else FirstSupported(c, i + 1)
  }

  // ---------------------------------------------------------------------
  // The device
  // ---------------------------------------------------------------------

  const NUM_BUFFERS: nat := 2
  const OUTPUT_FREQ: int := 48000
  const USER_ID_SYSTEM: int := 0xFF
  const PORT_TYPE_MAIN: int := 0

  /** The fields of `SDL_AudioSpec` the driver reads or writes. */
  datatype AudioSpec = AudioSpec(freq: int, format: u16, channels: u8, samples: u16, size: nat)

  /** `struct SDL_PrivateAudioData`: the output handle, the mixing buffer
      (`None` for NULL), the offsets of its slices and the ring index. */
  datatype Hidden = Hidden(aout: int, rawbuf: Option<seq<u8>>, mixbufs: seq<nat>, next: int)

  /** The zero-filled private data right after allocation; no slice is
      carved yet. */
  function ZeroHidden(): (h: Hidden)
    ensures h.aout == 0 && h.rawbuf.None? && h.next == 0
  {
    Hidden(0, None, [], 0)
  }

  /** The arguments of the `sceAudioOutOpen` call. */
  datatype OutOpenArgs = OutOpenArgs(userId: int, portType: int, index: int, len: nat, freq: int, param: nat)

  datatype OpenOutcome = OpenOutcome(spec: AudioSpec, hidden: Option<Hidden>, outOpen: Option<OutOpenArgs>, status: Status)

  /** The spec after normalisation, with the chosen format and the byte
      size `SDL_CalculateAudioSpec` computes for it. */
  function Normalise(spec: AudioSpec, format: u16, size: nat): (s: AudioSpec)
    ensures s.format == format && s.freq == OUTPUT_FREQ && s.size == size
    ensures s.samples == SampleSize(spec.samples) && s.channels == Channels(spec.channels)
  {
    spec.(format := format, samples := SampleSize(spec.samples), freq := OUTPUT_FREQ,
          channels := Channels(spec.channels), size := size)
  }

  /** Private data of an opened device: a zeroed buffer of `NUM_BUFFERS`
      slices of `size` bytes, slice `i` starting at `i * size`, and the ring
      at slice 0. */
  function OpenedHidden(aout: int, size: nat): (h: Hidden)
    ensures h.rawbuf.Some? && |h.rawbuf.value| == size * NUM_BUFFERS
    ensures forall b :: 0 <= b < |h.rawbuf.value| ==> h.rawbuf.value[b] == 0
    ensures |h.mixbufs| == NUM_BUFFERS && forall i :: 0 <= i < NUM_BUFFERS ==> h.mixbufs[i] == i * size
    ensures h.aout == aout && h.next == 0
  {
    Hidden(aout, Some(seq(size * 2, b => 0 as u8)), [0, size], 0)
  }

  /** `PS5AUDIO_OpenDevice`. `candidates` is what `SDL_FirstAudioFormat`
      and `SDL_NextAudioFormat` return in turn; `size` is the byte size
      `SDL_CalculateAudioSpec` computes; the other inputs are the results
      of the allocation of the private data, of `posix_memalign` and of
      `sceAudioOutOpen`. */
  function OpenDevice(spec: AudioSpec, candidates: seq<u16>, hiddenAllocated: bool, size: nat,
                      memalignOk: bool, aoutHandle: int): (r: OpenOutcome)
    ensures r.status == Ok <==>
      hiddenAllocated && FirstSupported(candidates, 0).Some? && memalignOk && aoutHandle >= 1
    ensures !hiddenAllocated ==> r.hidden.None? && r.spec == spec
    ensures r.outOpen.Some? ==> Supported(r.spec.format)
    ensures r.outOpen.Some? ==>
      r.outOpen.value == OutOpenArgs(USER_ID_SYSTEM, PORT_TYPE_MAIN, 0, r.spec.samples as nat, OUTPUT_FREQ,
                                     OutParam(r.spec.format, spec.channels))
    ensures hiddenAllocated && FirstSupported(candidates, 0).Some? ==>
      r.spec == Normalise(spec, candidates[FirstSupported(candidates, 0).value], size)
    ensures hiddenAllocated && FirstSupported(candidates, 0).Some? && memalignOk ==>
      r.outOpen.Some? && r.hidden.Some?
      && (aoutHandle >= 1 ==> r.hidden.value == OpenedHidden(aoutHandle, size))
      && (aoutHandle < 1 ==> r.hidden.value.rawbuf.None? && r.hidden.value.aout == aoutHandle)
  {
    if !hiddenAllocated then OpenOutcome(spec, None, None, Error("out of memory"))
    else match FirstSupported(candidates, 0)
      case None => OpenOutcome(spec, Some(ZeroHidden()), None, Error("unsupported audio format"))
      case Some(k) =>
        var s := Normalise(spec, candidates[k], size);
        if !memalignOk then OpenOutcome(s, Some(ZeroHidden()), None, Error("couldn't allocate mix buffer"))
        else
          var call := OutOpenArgs(USER_ID_SYSTEM, PORT_TYPE_MAIN, 0, s.samples as nat, OUTPUT_FREQ,
                                  OutParam(candidates[k], spec.channels));
          if aoutHandle < 1 then OpenOutcome(s, Some(ZeroHidden().(aout := aoutHandle)), Some(call), Error("sceAudioOutOpen"))
          else OpenOutcome(s, Some(OpenedHidden(aoutHandle, size)), Some(call), Ok)
  }

  /** A successful open uses a supported format that SDL offered before
      the end of its list, and every format offered before it was
      unsupported. */
  lemma OpenTakesFirstSupported(spec: AudioSpec, candidates: seq<u16>, size: nat, aoutHandle: int)
    requires OpenDevice(spec, candidates, true, size, true, aoutHandle).status == Ok
    ensures var f := OpenDevice(spec, candidates, true, size, true, aoutHandle).spec.format;
      exists k :: 0 <= k < ListEnd(candidates, 0) && candidates[k] == f && Supported(f)
        && forall j :: 0 <= j < k ==> !Supported(candidates[j])
  {
    var k := FirstSupported(candidates, 0).value;
    assert candidates[k] == OpenDevice(spec, candidates, true, size, true, aoutHandle).spec.format;
  }

  /** The slices of an opened device tile its buffer: every byte belongs
      to exactly one slice. */
  lemma MixbufsPartition(aout: int, size: nat, b: nat)
    requires b < size * NUM_BUFFERS
    ensures var h := OpenedHidden(aout, size);
      var i := b / size;
      && i < NUM_BUFFERS && h.mixbufs[i] <= b < h.mixbufs[i] + size
      && forall j :: 0 <= j < NUM_BUFFERS && h.mixbufs[j] <= b < h.mixbufs[j] + size ==> j == i
  {
    assert size > 0;
    if b < size {
      assert b / size == 0;
    } else {
      assert b - size < size;
      assert b / size == 1 by {
        assert b == 1 * size + (b - size);
      }
    }
  }

  /** Private data that `PlayDevice` and `GetDeviceBuf` may use. */
  predicate Opened(h: Hidden)
  {
    |h.mixbufs| == NUM_BUFFERS && 0 <= h.next < NUM_BUFFERS
  }

  /** `PS5AUDIO_GetDeviceBuf`: the slice the next play outputs. */
  function GetDeviceBuf(h: Hidden): (off: nat)
    requires Opened(h)
    ensures off in h.mixbufs
  {
    h.mixbufs[h.next]
  }

  datatype PlayOutcome = PlayOutcome(hidden: Hidden, output: nat)

  /** `PS5AUDIO_PlayDevice`: output the current slice and move the ring on. */
  function PlayDevice(h: Hidden): (r: PlayOutcome)
    requires Opened(h)
    ensures Opened(r.hidden)
    ensures r.output == GetDeviceBuf(h)
    ensures r.hidden == h.(next := r.hidden.next) && r.hidden.next != h.next
  {
    PlayOutcome(h.(next := (h.next + 1) % NUM_BUFFERS), h.mixbufs[h.next])
  }

  /** The slices output by `n` plays in a row, and the data after them. */
  function PlayMany(h: Hidden, n: nat): (r: (Hidden, seq<nat>))
    requires Opened(h)
    ensures Opened(r.0) && |r.1| == n
    decreases n
  {
    if n == 0 then (h, [])
    else
      var p := PlayDevice(h);
      var rest := PlayMany(p.hidden, n - 1);
      (rest.0, [p.output] + rest.1)
  }

  /** The ring alternates between the two slices: the `k`-th play outputs
      slice `(next + k) % 2`. */
  lemma {:induction false} PlaysAlternate(h: Hidden, n: nat)
    requires Opened(h)
    ensures PlayMany(h, n).0 == h.(next := (h.next + n) % NUM_BUFFERS)
    ensures forall k :: 0 <= k < n ==> PlayMany(h, n).1[k] == h.mixbufs[(h.next + k) % NUM_BUFFERS]
    decreases n
  {
    if n > 0 {
      var p := PlayDevice(h);
      PlaysAlternate(p.hidden, n - 1);
      var outs := PlayMany(h, n).1;
      forall k | 0 <= k < n
        ensures outs[k] == h.mixbufs[(h.next + k) % NUM_BUFFERS]
      {
        if k > 0 {
          assert outs[k] == PlayMany(p.hidden, n - 1).1[k - 1];
          assert (p.hidden.next + (k - 1)) % 2 == (h.next + k) % 2;
        }
      }
    }
  }

  /** From a fresh open the plays output slice 0, slice 1, slice 0, ... */
  lemma OpenedRingStartsAtZero(aout: int, size: nat, n: nat, k: nat)
    requires k < n
    ensures Opened(OpenedHidden(aout, size))
    ensures PlayMany(OpenedHidden(aout, size), n).1[k] == (k % 2) * size
  {
    var h := OpenedHidden(aout, size);
    PlaysAlternate(h, n);
    assert PlayMany(h, n).1[k] == h.mixbufs[k % 2];
  }

  datatype CloseOutcome = CloseOutcome(hidden: Hidden, closeCalled: bool, error: Option<string>)

  /** `PS5AUDIO_CloseDevice`, given the result of `sceAudioOutClose`. A
      failed close is only recorded as the SDL error. */
  function CloseDevice(h: Hidden, closeResult: int): (r: CloseOutcome)
    ensures r.closeCalled <==> h.aout > 0
    ensures r.hidden.rawbuf.None?
    ensures r.hidden.aout == if h.aout > 0 then -1 else h.aout
    ensures r.hidden.mixbufs == h.mixbufs && r.hidden.next == h.next
    ensures r.error.Some? <==> h.aout > 0 && closeResult != 0
  {
    var called := h.aout > 0;
    var h1 := if called then h.(aout := -1) else h;
    var err := if called && closeResult != 0 then Some("sceAudioOutClose") else None;
    CloseOutcome(h1.(rawbuf := None), called, err)
  }

  /** A second close neither calls `sceAudioOutClose` nor changes
      anything. */
  lemma CloseDeviceIdempotent(h: Hidden, res1: int, res2: int)
    ensures var c1 := CloseDevice(h, res1);
      CloseDevice(c1.hidden, res2) == CloseOutcome(c1.hidden, false, None)
  {
  }

  /** An open that fails at `sceAudioOutOpen` leaves no buffer behind, so
      closing it only has the handle left to consider. */
  lemma FailedOutOpenLeavesNoBuffer(spec: AudioSpec, candidates: seq<u16>, size: nat, aoutHandle: int, res: int)
    requires FirstSupported(candidates, 0).Some? && aoutHandle < 1
    ensures var r := OpenDevice(spec, candidates, true, size, true, aoutHandle);
      r.status.Error? && r.hidden.Some? && r.hidden.value.rawbuf.None?
      && !CloseDevice(r.hidden.value, res).closeCalled
  {
  }
}
