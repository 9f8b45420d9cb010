/** Packing infoframes into buffers and unpacking them, with header and checksum (hdmi.c). */
module Hdmi {
  import opened Fences
  import opened Infoframes
  import opened Octets

  const VENDOR: bv8 := 0x81
  const AVI: bv8 := 0x82
  const SPD: bv8 := 0x83
  const AUDIO: bv8 := 0x84
  const DRM: bv8 := 0x87

  const HDMI_OUI: bv32 := 0x000c03
  const PICTURE_ASPECT_16_9: bv8 := 2

  /** The union of all infoframes, with the header fields that callers may set. */
  datatype Infoframe =
    | AviFrame(version: bv8, length: bv8, avi: Avi)
    | SpdFrame(version: bv8, length: bv8, spd: Spd)
    | AudioFrame(version: bv8, length: bv8, audio: Audio)
    | VendorFrame(version: bv8, length: bv8, oui: bv32, vendor: Vendor)
    | DrmFrame(version: bv8, length: bv8, drm: Drm)
    | UnknownFrame(kind: bv8)

  datatype PackResult = Packed(length: nat) | Invalid | NoSpace

  /** The fixed sizes of the arrays inside a frame. */
  predicate Shaped(f: Infoframe) {
    match f
    case SpdFrame(_, _, spd) => |spd.vendor| == 8 && |spd.product| == 16
    case DrmFrame(_, _, drm) => |drm.primaries| == 3
    case _ => true
  }

  function Kind(f: Infoframe): (r: bv8) {
    match f
    case AviFrame(_, _, _) => AVI
    case SpdFrame(_, _, _) => SPD
    case AudioFrame(_, _, _) => AUDIO
    case VendorFrame(_, _, _, _) => VENDOR
    case DrmFrame(_, _, _) => DRM
    case UnknownFrame(kind) => kind
  }

  /** The check that hdmi_infoframe_pack makes; it sets a vendor frame's length first. */
  function Derived(f: Infoframe): (r: Infoframe) {
    match f
    case VendorFrame(version, length, oui, vendor) =>
      if version == 1 && oui == HDMI_OUI then VendorFrame(version, VendorLength(vendor), oui, vendor) else f
    case _ => f
  }

  predicate Check(f: Infoframe) {
    match f
    case AviFrame(version, length, avi) => version == 2 && length == 13 && avi.pictureAspect <= PICTURE_ASPECT_16_9
    case SpdFrame(version, length, _) => version == 1 && length == 25
    case AudioFrame(version, length, _) => version == 1 && length == 10
    case VendorFrame(version, length, oui, vendor) =>
      version == 1 && oui == HDMI_OUI && (vendor.vic == 0 || vendor.structure.None?) && length == VendorLength(vendor)
    case DrmFrame(version, length, _) => version == 1 && length == 26
    case UnknownFrame(_) => false
  }

  /** hdmi_infoframe_check. It refuses exactly what packing refuses, and dynamic range frames as
      well, for which it has no case. */
  method InfoframeCheck(f: Infoframe) returns (g: Infoframe, ok: bool)
    ensures g == Derived(f)
    ensures ok <==> Check(Derived(f)) && !f.DrmFrame?
  {
    g := f;
    match f
    case AviFrame(version, length, avi) =>
      ok := version == 2 && length == 13 && avi.pictureAspect <= PICTURE_ASPECT_16_9;
    case SpdFrame(version, length, _) =>
      ok := version == 1 && length == 25;
    case AudioFrame(version, length, _) =>
      ok := version == 1 && length == 10;
    case VendorFrame(version, _, oui, vendor) =>
      ok := false;
      if version == 1 && oui == HDMI_OUI {
        g := VendorFrame(version, VendorLength(vendor), oui, vendor);
        ok := vendor.vic == 0 || vendor.structure.None?;
      }
    case _ =>
      ok := false;
  }

  function Payload(f: Infoframe): (p: Bytes)
    requires Shaped(f) && Check(f)
    ensures |p| == f.length as int
  {
    match f
    case AviFrame(_, _, avi) => AviPayload(avi)
    case SpdFrame(_, _, spd) => SpdPayload(spd)
    case AudioFrame(_, _, audio) => AudioPayload(audio)
    case VendorFrame(_, _, _, vendor) => VendorPayload(vendor)
    case DrmFrame(_, _, drm) => DrmPayload(drm)
  }

  // ---------------------------------------------------------------- checksum

  function Total(s: Bytes): (r: nat) {
    if s == [] then 0 else Total(s[..|s| - 1]) + s[|s| - 1] as int
  }

  /** The unsigned byte that makes the bytes sum to zero. */
  function Checksum(s: Bytes): (c: int)
    ensures 0 <= c < 256 && (Total(s) + c) % 256 == 0
    ensures c == 0 <==> Total(s) % 256 == 0
  {
    ComplementSums(Total(s));
    (256 - Total(s) % 256) % 256
  }

  /** hdmi_infoframe_checksum: the sum wraps at 256. */
  method ComputeChecksum(buffer: array<bv8>, size: nat) returns (r: int)
    requires size <= buffer.Length
    ensures r == Checksum(buffer[..size])
  {
    var csum := 0;
    var i := 0;
    while i < size
      invariant i <= size && csum == Total(buffer[..i]) % 256
    {
      assert buffer[..i + 1][..i] == buffer[..i];
      WrapsAsSum(Total(buffer[..i]), buffer[i] as int);
      csum := (csum + buffer[i] as int) % 256;
      i := i + 1;
    }
    return (256 - csum) % 256;
  }

  lemma ComplementSums(total: nat)
    ensures var c := (256 - total % 256) % 256;
            0 <= c < 256 && (total + c) % 256 == 0 && (c == 0 <==> total % 256 == 0)
  {
    if total % 256 != 0 {
      assert (256 - total % 256) % 256 == 256 - total % 256;
      WrapsAsSum(total, 256 - total % 256);
    }
  }

  lemma WrapsAsSum(total: nat, x: int)
    ensures (total % 256 + x) % 256 == (total + x) % 256
  {
  }

  lemma {:induction false} TotalSet(s: Bytes, i: nat, x: bv8)
    requires i < |s|
    ensures Total(s[i := x]) == Total(s) - s[i] as int + x as int
  {
    var last := |s| - 1;
    if i == last {
      assert s[i := x][..last] == s[..last];
    } else {
      TotalSet(s[..last], i, x);
      assert s[i := x][..last] == s[..last][i := x];
    }
  }

  function Sealed(s: Bytes): (r: Bytes)
    requires |s| >= 4
  {
    s[3 := Checksum(s) as bv8]
  }

  lemma SealedSumsToZero(s: Bytes)
    requires |s| >= 4 && s[3] == 0
    ensures Checksum(Sealed(s)) == 0
  {
    ByteOf(Checksum(s));
    TotalSet(s, 3, Checksum(s) as bv8);
  }

  // ----------------------------------------------------- the bytes of a frame

  function Unsealed(f: Infoframe): (s: Bytes)
    requires Shaped(f) && Check(f)
    ensures |s| == 4 + f.length as int && s[3] == 0
  {
    [Kind(f), f.version, f.length, 0] + Payload(f)
  }

  /** What packing leaves in a buffer of the given size. */
  function Image(f: Infoframe, size: nat): (s: Bytes)
    requires Shaped(f) && Check(f) && size >= 4 + f.length as int
    ensures |s| == size
  {
    Sealed(Unsealed(f)) + Zeros(size - (4 + f.length as int))
  }

  function Minimum(kind: bv8): (r: nat) {
    if kind == AVI then 17 else if kind == SPD then 29 else if kind == AUDIO then 14 else if kind == DRM then 30 else 4
  }

  /** The header is one of the kind, the buffer holds the whole frame, and it sums to zero. */
  predicate Accepted(s: Bytes) {
    && |s| >= 4
    && |s| >= Minimum(s[0])
    && s[1] == (if s[0] == AVI then 2 else 1)
    && s[2] as int <= |s| - 4
    && (if s[0] == VENDOR then 4 <= s[2] <= 6
        else s[0] in {AVI, SPD, AUDIO, DRM} && s[2] as int == Minimum(s[0]) - 4)
    && Checksum(s[..4 + s[2] as int]) == 0
  }

  /** hdmi_infoframe_unpack: the frame in a buffer, if there is one. */
  function Decode(s: Bytes): (r: Option<Infoframe>) {
    if !Accepted(s) then None
    else if s[0] == AVI then Some(AviFrame(2, 13, AviFields(s[4..])))
    else if s[0] == SPD then Some(SpdFrame(1, 25, SpdFields(s[4..])))
    else if s[0] == AUDIO then Some(AudioFrame(1, 10, AudioFields(s[4..])))
    else if s[0] == DRM then Some(DrmFrame(1, 26, DrmFields(s[4..])))
    else match VendorFields(s[4..], s[2])
      case None => None
      case Some(v) => Some(VendorFrame(1, s[2], HDMI_OUI, v))
  }

  /** Unpacking a product description looks for the NULs of two strings in the buffer itself. It
      stays inside the buffer if and only if there is a NUL at or behind the start of the second
      one. */
  lemma SpdStringsEndInside(s: Bytes)
    requires |s| >= 29
    ensures EndsInside(s, 4) && EndsInside(s, 12) <==> exists k :: 12 <= k < |s| && s[k] == 0
  {
    EndsInsideIff(s, 4);
    EndsInsideIff(s, 12);
  }

  /** Of the buffers that were packed, those do that are longer than the frame, or have a NUL in
      the product or as the device; and all are accepted. */
  lemma PackedSpdEndsInside(f: Infoframe, size: nat)
    requires f.SpdFrame? && Shaped(f) && Check(f) && size >= 29
    ensures var s := Image(f, size);
            && Accepted(s)
            && (EndsInside(s, 4) && EndsInside(s, 12) <==> size > 29 || f.spd.sdi == 0 || 0 in f.spd.product)
  {
    var s := Image(f, size);
    ImageParts(f, size);
    SpdStringsEndInside(s);
    forall k | 4 <= k < size
      ensures s[k] == (SpdPayload(f.spd) + Zeros(size - 29))[k - 4]
    {
      assert s[k] == s[4..][k - 4];
    }
    assert forall k :: 0 <= k < 16 ==> f.spd.product[k] == s[12 + k];
    assert s[28] == f.spd.sdi;
    if size > 29 {
      assert s[29] == 0;
    }
  }

  /** So there is a buffer that is accepted, and read beyond its end. */
  lemma SpdReadsBeyond() returns (s: Bytes)
    ensures |s| == 29 && Accepted(s) && s[0] == SPD && !EndsInside(s, 12)
  {
    var f := SpdFrame(1, 25, Spd(Zeros(8), seq(16, _ => 0x41), 1));
    s := Image(f, 29);
    ImageParts(f, 29);
    PackedSpdEndsInside(f, 29);
    EndsInsideIff(s, 4);
    EndsInsideIff(s, 12);
  }

  // ------------------------------------------------------------- round trips

  /** The fields are within the bits they are packed into, and unused ones as initialized. */
  predicate Fits(f: Infoframe) {
    match f
    case AviFrame(_, _, avi) => AviFits(avi)
    case SpdFrame(_, _, spd) => SpdFits(spd)
    case AudioFrame(_, _, audio) => AudioFits(audio) && audio.channels == 0
    case VendorFrame(_, _, _, vendor) => VendorFits(vendor)
    case DrmFrame(_, _, drm) => DrmFits(drm)
    case UnknownFrame(_) => false
  }

  lemma ImageParts(f: Infoframe, size: nat)
    requires Shaped(f) && Check(f) && size >= 4 + f.length as int
    ensures var s, n := Image(f, size), f.length as int;
            s[0] == Kind(f) && s[1] == f.version && s[2] == f.length
            && s[..4 + n] == Sealed(Unsealed(f)) && s[4..] == Payload(f) + Zeros(size - (4 + n))
            && Accepted(s)
  {
    SealedSumsToZero(Unsealed(f));
    var s, n, u := Image(f, size), f.length as int, Unsealed(f);
    assert s[..4 + n] == Sealed(u);
    assert Sealed(u)[4..] == u[4..] == Payload(f);
    DropFour(Sealed(u), Zeros(size - (4 + n)));
  }

  lemma DropFour(s: Bytes, t: Bytes)
    requires |s| >= 4
    ensures (s + t)[4..] == s[4..] + t
  {
  }

  /** Unpacking a packed frame gives the frame back exactly if its fields fit. */
  lemma RoundTrip(f: Infoframe, size: nat)
    requires Shaped(f) && Check(f) && size >= 4 + f.length as int
    ensures Decode(Image(f, size)) == Some(f) <==> Fits(f)
  {
    ImageParts(f, size);
    var rest := Zeros(size - (4 + f.length as int));
    match f
    case AviFrame(_, _, avi) =>
      AviRoundTrip(avi);
      AviPrefix(AviPayload(avi), rest);
    case SpdFrame(_, _, spd) => SpdRoundTrip(spd, rest);
    case AudioFrame(_, _, audio) =>
      AudioDecodes(f, size);
      AudioRoundTrip(audio);
    case VendorFrame(_, _, _, vendor) => VendorRoundTrip(vendor, rest);
    case DrmFrame(_, _, drm) => DrmRoundTrip(drm, rest);
  }

  /** An audio frame of at most eight channels comes back with one channel less. */
  lemma AudioLosesAChannel(f: Infoframe, size: nat)
    requires f.AudioFrame? && Check(f) && size >= 14 && AudioFits(f.audio) && f.audio.channels <= 8
    ensures Decode(Image(f, size)) == Some(f.(audio := f.audio.(channels := PackedChannels(f.audio.channels))))
  {
    AudioDecodes(f, size);
    AudioRoundTrip(f.audio);
  }

  lemma AudioDecodes(f: Infoframe, size: nat)
    requires f.AudioFrame? && Check(f) && size >= 14
    ensures Decode(Image(f, size)) == Some(AudioFrame(1, 10, AudioFields(AudioPayload(f.audio))))
  {
    ImageParts(f, size);
    AudioPrefix(AudioPayload(f.audio), Zeros(size - 14));
  }

  lemma AviPrefix(p: Bytes, rest: Bytes)
    requires |p| == 13
    ensures AviFields(p + rest) == AviFields(p)
  {
  }

  lemma AudioPrefix(p: Bytes, rest: Bytes)
    requires |p| == 10
    ensures AudioFields(p + rest) == AudioFields(p)
  {
  }

  lemma OffByLess(total: int, x: int, y: int)
    requires total % 256 == 0 && 0 <= x < 256 && 0 <= y < 256 && x != y
    ensures (total - x + y) % 256 != 0
  {
  }

  lemma OneByteChangesTotal(s: Bytes, i: nat, x: bv8)
    requires i < |s| && x != s[i] && Total(s) % 256 == 0
    ensures Total(s[i := x]) % 256 != 0
  {
    TotalSet(s, i, x);
    ByteIsItsValue(s[i]);
    ByteIsItsValue(x);
    OffByLess(Total(s), s[i] as int, x as int);
  }

  /** A buffer that is accepted is no longer after one byte of its checksum or payload has
      changed. */
  lemma OneWrongByteIsRejected(s: Bytes, i: nat, x: bv8)
    requires Accepted(s) && 3 <= i < 4 + s[2] as int && x != s[i]
    ensures Decode(s[i := x]) == None
  {
    var n := 4 + s[2] as int;
    OneByteChangesTotal(s[..n], i, x);
    assert s[i := x][..n] == s[..n][i := x];
    assert Checksum(s[i := x][..n]) != 0;
  }
}
