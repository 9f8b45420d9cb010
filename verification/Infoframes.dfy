/** What the payloads of infoframes hold and how they are laid out in bytes (hdmi.c). */
module Infoframes {
  import opened Fences

  type Bytes = seq<bv8>

  function Low(x: bv16): (r: bv8) {
    (x & 0xff) as bv8
  }

  function High(x: bv16): (r: bv8) {
    ((x >> 8) & 0xff) as bv8
  }

  function Join(high: bv8, low: bv8): (r: bv16) {
    ((high as bv16) << 8) | (low as bv16)
  }

  lemma JoinSplits(x: bv16)
    ensures Join(High(x), Low(x)) == x
  {
  }

  /** Two 16-bit values, packed with the low bytes first. */
  datatype Point = Point(x: bv16, y: bv16)

  function PointBytes(p: Point): (r: Bytes)
    ensures |r| == 4
  {
    [Low(p.x), High(p.x), Low(p.y), High(p.y)]
  }

  // --------------------------------------------- auxiliary video information

  datatype Avi = Avi(
    colorspace: bv8, scanMode: bv8, colorimetry: bv8, pictureAspect: bv8, activeAspect: bv8, itc: bool,
    extendedColorimetry: bv8, quantizationRange: bv8, nups: bv8, videoCode: bv8, yccQuantizationRange: bv8,
    contentType: bv8, pixelRepeat: bv8, topBar: bv16, bottomBar: bv16, leftBar: bv16, rightBar: bv16)

  function Flag(on: bool, bit: bv8): (r: bv8) {
    if on then bit else 0
  }

  function AviByte1(f: Avi): (r: bv8) {
    ((f.colorspace & 0x3) << 5) | (f.scanMode & 0x3)
    | Flag(f.activeAspect & 0xf != 0, 0x10)
    | Flag(f.topBar != 0 || f.bottomBar != 0, 0x8)
    | Flag(f.leftBar != 0 || f.rightBar != 0, 0x4)
  }

  function AviByte2(f: Avi): (r: bv8) {
    ((f.colorimetry & 0x3) << 6) | ((f.pictureAspect & 0x3) << 4) | (f.activeAspect & 0xf)
  }

  function AviByte3(f: Avi): (r: bv8) {
    ((f.extendedColorimetry & 0x7) << 4) | ((f.quantizationRange & 0x3) << 2) | (f.nups & 0x3)
    | (if f.itc then 0x80 else 0)
  }

  function AviByte5(f: Avi): (r: bv8) {
    ((f.yccQuantizationRange & 0x3) << 6) | ((f.contentType & 0x3) << 4) | (f.pixelRepeat & 0xf)
  }

  function AviPayload(f: Avi): (p: Bytes)
    ensures |p| == 13
  {
    [AviByte1(f), AviByte2(f), AviByte3(f), f.videoCode & 0x7f, AviByte5(f)]
    + PointBytes(Point(f.topBar, f.bottomBar)) + PointBytes(Point(f.leftBar, f.rightBar))
  }

  function AviFields(p: Bytes): (r: Avi)
    requires |p| >= 13
  {
    var rows, columns := p[0] & 0x8 != 0, p[0] & 0x4 != 0;
    Avi((p[0] >> 5) & 0x3, p[0] & 0x3, (p[1] >> 6) & 0x3, (p[1] >> 4) & 0x3, p[1] & 0xf, p[2] & 0x80 != 0,
        (p[2] >> 4) & 0x7, (p[2] >> 2) & 0x3, p[2] & 0x3, p[3] & 0x7f, (p[4] >> 6) & 0x3,
        (p[4] >> 4) & 0x3, p[4] & 0xf,
        if rows then Join(p[6], p[5]) else 0, if rows then Join(p[8], p[7]) else 0,
        if columns then Join(p[10], p[9]) else 0, if columns then Join(p[12], p[11]) else 0)
  }

  /** Each field is within the bits it is packed into. */
  predicate AviFits(f: Avi) {
    && f.colorspace <= 3 && f.scanMode <= 3 && f.colorimetry <= 3 && f.pictureAspect <= 3 && f.activeAspect <= 15
    && f.extendedColorimetry <= 7 && f.quantizationRange <= 3 && f.nups <= 3 && f.videoCode <= 0x7f
    && f.yccQuantizationRange <= 3 && f.contentType <= 3 && f.pixelRepeat <= 15
  }

  /** Unpacking gives back exactly the frames whose fields fit. */
  lemma AviRoundTrip(f: Avi)
    ensures AviFields(AviPayload(f)) == f <==> AviFits(f)
  {
    JoinSplits(f.topBar);
    JoinSplits(f.bottomBar);
    JoinSplits(f.leftBar);
    JoinSplits(f.rightBar);
  }

  // ---------------------------------------------- source product description

  datatype Spd = Spd(vendor: Bytes, product: Bytes, sdi: bv8)

  function Zeros(n: nat): (z: Bytes)
    ensures |z| == n && forall i :: 0 <= i < n ==> z[i] == 0
  {
    if n == 0 then [] else Zeros(n - 1) + [0]
  }

  /** Up to the first NUL, or to the end of the buffer, behind which strlen would go on. */
  function StrLen(s: Bytes): (n: nat)
    ensures n <= |s|
  {
    if s == [] || s[0] == 0 then 0 else 1 + StrLen(s[1..])
  }

  /** A field of n bytes, cleared and filled from a string. */
  function Copied(s: Bytes, n: nat): (r: Bytes) {
    var len := if StrLen(s) < n then StrLen(s) else n;
    s[..len] + Zeros(n - len)
  }

  predicate Padded(s: Bytes) {
    forall i, j :: 0 <= i < j < |s| && s[i] == 0 ==> s[j] == 0
  }

  lemma {:induction false} StrLenIs(s: Bytes)
    ensures forall i :: 0 <= i < StrLen(s) ==> s[i] != 0
    ensures StrLen(s) < |s| ==> s[StrLen(s)] == 0
  {
    if s != [] && s[0] != 0 {
      StrLenIs(s[1..]);
    }
  }

  /** The string from k on has its NUL inside the buffer. */
  predicate EndsInside(s: Bytes, k: nat)
    requires k <= |s|
  {
    k + StrLen(s[k..]) < |s|
  }

  lemma EndsInsideIff(s: Bytes, k: nat)
    requires k <= |s|
    ensures EndsInside(s, k) <==> exists j :: k <= j < |s| && s[j] == 0
  {
    var t := s[k..];
    StrLenIs(t);
    if EndsInside(s, k) {
      assert s[k + StrLen(t)] == t[StrLen(t)];
    } else {
      assert forall j :: k <= j < |s| ==> s[j] == t[j - k];
    }
  }

  /** A field survives being read as a string exactly if it is padded with NULs. */
  lemma CopyKeepsPadded(field: Bytes, rest: Bytes)
    ensures Copied(field + rest, |field|) == field <==> Padded(field)
  {
    var s := field + rest;
    StrLenIs(s);
    var copy := Copied(s, |field|);
    if StrLen(s) < |field| {
      var z := StrLen(s);
      assert field[z] == 0;
      assert forall i :: 0 <= i < |field| ==> copy[i] == if i < z then field[i] else 0;
    } else {
      assert forall i :: 0 <= i < |field| ==> s[i] == field[i] && field[i] != 0;
      assert copy == field;
    }
  }

  function SpdPayload(f: Spd): (r: Bytes) {
    f.vendor + f.product + [f.sdi]
  }

  function SpdFields(p: Bytes): (r: Spd)
    requires |p| >= 25
  {
    Spd(Copied(p, 8), Copied(p[8..], 16), p[24])
  }

  predicate SpdFits(f: Spd) {
    |f.vendor| == 8 && |f.product| == 16 && Padded(f.vendor) && Padded(f.product)
  }

  lemma SpdRoundTrip(f: Spd, rest: Bytes)
    requires |f.vendor| == 8 && |f.product| == 16
    ensures SpdFields(SpdPayload(f) + rest) == f <==> SpdFits(f)
  {
    var p := SpdPayload(f) + rest;
    assert p == f.vendor + (f.product + [f.sdi] + rest) && p[8..] == f.product + ([f.sdi] + rest);
    CopyKeepsPadded(f.vendor, f.product + [f.sdi] + rest);
    CopyKeepsPadded(f.product, [f.sdi] + rest);
  }

  // ------------------------------------------------------------------- audio

  datatype Audio = Audio(channels: bv8, codingType: bv8, sampleSize: bv8, sampleFrequency: bv8, codingTypeExt: bv8,
                         channelAllocation: bv8, levelShiftValue: bv8, downmixInhibit: bool)

  function PackedChannels(channels: bv8): (r: bv8) {
    if channels >= 2 then channels - 1 else 0
  }

  function AudioByte1(f: Audio, channels: bv8): (r: bv8) {
    ((f.codingType & 0xf) << 4) | (channels & 0x7)
  }

  function AudioByte2(f: Audio): (r: bv8) {
    ((f.sampleFrequency & 0x7) << 2) | (f.sampleSize & 0x3)
  }

  function AudioByte5(f: Audio): (r: bv8) {
    ((f.levelShiftValue & 0xf) << 3) | (if f.downmixInhibit then 0x80 else 0)
  }

  function AudioHead(f: Audio): (r: Bytes) {
    [AudioByte1(f, PackedChannels(f.channels)), AudioByte2(f), f.codingTypeExt & 0x1f, f.channelAllocation,
     AudioByte5(f)]
  }

  function AudioPayload(f: Audio): (p: Bytes)
    ensures |p| == 10
  {
    AudioHead(f) + [0, 0, 0, 0, 0]
  }

  function AudioFields(p: Bytes): (r: Audio)
    requires |p| >= 10
  {
    Audio(p[0] & 0x7, (p[0] >> 4) & 0xf, p[1] & 0x3, (p[1] >> 2) & 0x7, p[2] & 0x1f, p[3], (p[4] >> 3) & 0xf,
          p[4] & 0x80 != 0)
  }

  predicate AudioFits(f: Audio) {
    f.codingType <= 15 && f.sampleSize <= 3 && f.sampleFrequency <= 7 && f.codingTypeExt <= 31
        && f.levelShiftValue <= 15
  }

  /** Every field but the channel count comes back; that one comes back one less, so a frame
      survives exactly if it does not tell the number of channels. */
  lemma AudioRoundTrip(f: Audio)
    ensures AudioFits(f) && f.channels <= 8 ==>
            AudioFields(AudioPayload(f)) == f.(channels := PackedChannels(f.channels))
    ensures AudioFields(AudioPayload(f)) == f <==> AudioFits(f) && f.channels == 0
  {
  }

  // ------------------------------------------------------------------ vendor

  const SIDE_BY_SIDE_HALF: bv8 := 8

  /** vic, the 3D structure unless it is not set, and its extension. */
  datatype Vendor = Vendor(vic: bv8, structure: Option<bv8>, extension: bv8)

  function VendorLength(f: Vendor): (r: bv8) {
    if f.structure.Some? && f.structure.value >= SIDE_BY_SIDE_HALF then 6
    else if f.vic != 0 || f.structure.Some? then 5
    else 4
  }

  /** The payload behind the identifier. */
  function VendorTail(f: Vendor): (r: Bytes) {
    if f.structure.Some? then
      [0x40, (f.structure.value & 0xf) << 4]
          + (if f.structure.value >= SIDE_BY_SIDE_HALF then [(f.extension & 0xf) << 4] else [])
    else if f.vic != 0 then [0x20, f.vic]
    else [0x00]
  }

  function VendorPayload(f: Vendor): (p: Bytes)
    requires f.vic == 0 || f.structure.None?
    ensures |p| == VendorLength(f) as int
  {
    [0x03, 0x0c, 0x00] + VendorTail(f)
  }

  /** The payload of the given length, if it is one of an HDMI vendor frame. */
  function VendorFields(p: Bytes, length: bv8): (r: Option<Vendor>)
    requires 4 <= length <= 6 && |p| >= length as int
  {
    var format := p[3] >> 5;
    if p[0] != 0x03 || p[1] != 0x0c || p[2] != 0x00 || format > 2 then None
    else if format == 2 then
      if length != 5 && length != 6 then None
      else if p[4] >> 4 >= SIDE_BY_SIDE_HALF then
        if length != 6 then None else Some(Vendor(0, Some(p[4] >> 4), p[5] >> 4))
      else Some(Vendor(0, Some(p[4] >> 4), 0))
    else if format == 1 then
      if length != 5 then None else Some(Vendor(p[4], None, 0))
    else
      if length != 4 then None else Some(Vendor(0, None, 0))
  }

  predicate VendorFits(f: Vendor) {
    && (f.vic == 0 || f.structure.None?)
    && (f.structure.Some? ==> f.structure.value <= 15)
    && f.extension <= (if f.structure.Some? && f.structure.value >= SIDE_BY_SIDE_HALF then 15 else 0)
  }

  lemma VendorRoundTrip(f: Vendor, rest: Bytes)
    requires f.vic == 0 || f.structure.None?
    ensures VendorFields(VendorPayload(f) + rest, VendorLength(f)) == Some(f) <==> VendorFits(f)
  {
    var p := VendorPayload(f);
    assert forall i :: 0 <= i < |p| ==> (p + rest)[i] == p[i];
  }

  // ---------------------------------------------- dynamic range and mastering

  datatype Drm = Drm(eotf: bv8, metadataType: bv8, primaries: seq<Point>, whitePoint: Point,
                     maxLuminance: bv16, minLuminance: bv16, maxCll: bv16, maxFall: bv16)

  function PointAt(p: Bytes, i: nat): (r: Point)
    requires i + 4 <= |p|
  {
    Point(Join(p[i + 1], p[i]), Join(p[i + 3], p[i + 2]))
  }

  function PointsBytes(ps: seq<Point>): (r: Bytes)
    ensures |r| == 4 * |ps|
  {
    if ps == [] then [] else PointBytes(ps[0]) + PointsBytes(ps[1..])
  }

  /** All 16-bit values, in the order they are packed. */
  function Points(f: Drm): (r: seq<Point>) {
    f.primaries + [f.whitePoint, Point(f.maxLuminance, f.minLuminance), Point(f.maxCll, f.maxFall)]
  }

  function DrmPayload(f: Drm): (p: Bytes)
    requires |f.primaries| == 3
    ensures |p| == 26
  {
    [f.eotf, f.metadataType] + PointsBytes(Points(f))
  }

  function DrmFields(p: Bytes): (r: Drm)
    requires |p| >= 26
  {
    Drm(p[0] & 0x7, p[1] & 0x7, [PointAt(p, 2), PointAt(p, 6), PointAt(p, 10)], PointAt(p, 14),
        Join(p[19], p[18]), Join(p[21], p[20]), Join(p[23], p[22]), Join(p[25], p[24]))
  }

  predicate DrmFits(f: Drm) {
    |f.primaries| == 3 && f.eotf <= 7 && f.metadataType <= 7
  }

  lemma {:induction false} PointsRoundTrip(a: Bytes, ps: seq<Point>, b: Bytes, k: nat)
    requires k < |ps|
    ensures PointAt(a + PointsBytes(ps) + b, |a| + 4 * k) == ps[k]
    decreases k
  {
    var first, rest := PointBytes(ps[0]), PointsBytes(ps[1..]);
    if k == 0 {
      JoinSplits(ps[0].x);
      JoinSplits(ps[0].y);
    } else {
      PointsRoundTrip(a + first, ps[1..], b, k - 1);
    }
    assert a + PointsBytes(ps) + b == (a + first) + rest + b;
  }

  lemma DrmRoundTrip(f: Drm, rest: Bytes)
    requires |f.primaries| == 3
    ensures DrmFields(DrmPayload(f) + rest) == f <==> DrmFits(f)
  {
    var head, p := [f.eotf, f.metadataType], DrmPayload(f) + rest;
    forall k | 0 <= k < 6
      ensures PointAt(p, 2 + 4 * k) == Points(f)[k]
    {
      PointsRoundTrip(head, Points(f), rest, k);
    }
    assert PointAt(p, 2 + 4 * 4) == Points(f)[4] && PointAt(p, 2 + 4 * 5) == Points(f)[5];
    assert [PointAt(p, 2), PointAt(p, 6), PointAt(p, 10)] == f.primaries by {
      assert PointAt(p, 2 + 4 * 0) == Points(f)[0] && PointAt(p, 2 + 4 * 1) == Points(f)[1]
          && PointAt(p, 2 + 4 * 2) == Points(f)[2];
    }
    assert PointAt(p, 2 + 4 * 3) == Points(f)[3];
  }
}
