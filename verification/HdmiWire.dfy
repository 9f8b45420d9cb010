/** Infoframes as they go over the wire: every byte and bit of a packed frame, by the numbers of
    the HDMI and CTA-861 tables that hdmi.c and hdmi.h follow. */
module HdmiWire {
  import opened Fences
  import opened Infoframes
  import opened Hdmi

  /** A 16-bit value with the low byte first. */
  predicate Holds16(s: Bytes, at: nat, x: bv16)
    requires at + 2 <= |s|
  {
    ((s[at + 1] as bv16) << 8) | (s[at] as bv16) == x
  }

  lemma BytesHold(s: Bytes, at: nat, x: bv16)
    requires at + 2 <= |s| && s[at] == Low(x) && s[at + 1] == High(x)
    ensures Holds16(s, at, x)
  {
    JoinSplits(x);
  }

  lemma JoinHolds(s: Bytes, at: nat)
    requires at + 2 <= |s|
    ensures Holds16(s, at, Join(s[at + 1], s[at]))
  {
  }

  lemma PayloadAt(f: Infoframe, size: nat)
    requires Shaped(f) && Check(f) && size >= 4 + f.length as int
    ensures var s := Image(f, size);
            && s[0] == Kind(f) && s[1] == f.version && s[2] == f.length
            && forall k :: 4 <= k < 4 + f.length as int ==> s[k] == Payload(f)[k - 4]
  {
    ImageParts(f, size);
    var s := Image(f, size);
    forall k | 4 <= k < 4 + f.length as int
      ensures s[k] == Payload(f)[k - 4]
    {
      assert s[k] == s[4..][k - 4];
    }
  }

  /** The headers that are accepted, and no others. */
  lemma HeaderIsChecked(f: Infoframe)
    ensures f.AviFrame? ==> (Check(f) <==> f.version == 2 && f.length == 13 && f.avi.pictureAspect <= 2)
    ensures f.SpdFrame? ==> (Check(f) <==> f.version == 1 && f.length == 25)
    ensures f.AudioFrame? ==> (Check(f) <==> f.version == 1 && f.length == 10)
    ensures f.DrmFrame? ==> (Check(f) <==> f.version == 1 && f.length == 26)
    ensures f.VendorFrame? ==>
              var v := f.vendor;
              Check(f) <==>
                && f.version == 1 && f.oui == 0x000c03 && (v.vic == 0 || v.structure.None?)
                && f.length == (if v.structure.Some? && v.structure.value >= 8 then 6
                                else if v.structure.Some? || v.vic != 0 then 5 else 4)
    ensures f.UnknownFrame? ==> !Check(f)
  {
  }

  lemma AviFirstBits(v: Avi)
    ensures var b := AviByte1(v);
            && b >> 7 == 0 && (b >> 5) & 3 == v.colorspace & 3 && b & 3 == v.scanMode & 3
            && (b & 0x10 != 0 <==> v.activeAspect & 0xf != 0)
            && (b & 0x08 != 0 <==> v.topBar != 0 || v.bottomBar != 0)
            && (b & 0x04 != 0 <==> v.leftBar != 0 || v.rightBar != 0)
  {
  }

  lemma AviOtherBits(v: Avi)
    ensures var b := AviByte2(v);
            b >> 6 == v.colorimetry & 3 && (b >> 4) & 3 == v.pictureAspect & 3 && b & 0xf == v.activeAspect & 0xf
    ensures var b := AviByte3(v);
            && (b & 0x80 != 0 <==> v.itc) && (b >> 4) & 7 == v.extendedColorimetry & 7
            && (b >> 2) & 3 == v.quantizationRange & 3 && b & 3 == v.nups & 3
    ensures var b := v.videoCode & 0x7f; b >> 7 == 0 && b & 0x7f == v.videoCode & 0x7f
    ensures var b := AviByte5(v);
            && b >> 6 == v.yccQuantizationRange & 3 && (b >> 4) & 3 == v.contentType & 3
            && b & 0xf == v.pixelRepeat & 0xf
  {
  }

  /** Auxiliary video information: type 0x82, version 2, 13 bytes. */
  lemma AviOnTheWire(f: Infoframe, size: nat)
    requires f.AviFrame? && Check(f) && size >= 17
    ensures var s, v := Image(f, size), f.avi;
            && s[0] == 0x82 && s[1] == 2 && s[2] == 13
            && (s[4] >> 7 == 0 && (s[4] >> 5) & 3 == v.colorspace & 3 && s[4] & 3 == v.scanMode & 3)
            && (s[4] & 0x10 != 0 <==> v.activeAspect & 0xf != 0)
            && (s[4] & 0x08 != 0 <==> v.topBar != 0 || v.bottomBar != 0)
            && (s[4] & 0x04 != 0 <==> v.leftBar != 0 || v.rightBar != 0)
            && s[5] >> 6 == v.colorimetry & 3 && (s[5] >> 4) & 3 == v.pictureAspect & 3
            && s[5] & 0xf == v.activeAspect & 0xf
            && (s[6] & 0x80 != 0 <==> v.itc) && (s[6] >> 4) & 7 == v.extendedColorimetry & 7
            && (s[6] >> 2) & 3 == v.quantizationRange & 3 && s[6] & 3 == v.nups & 3
            && s[7] >> 7 == 0 && s[7] & 0x7f == v.videoCode & 0x7f
            && s[8] >> 6 == v.yccQuantizationRange & 3 && (s[8] >> 4) & 3 == v.contentType & 3
            && s[8] & 0xf == v.pixelRepeat & 0xf
            && Holds16(s, 9, v.topBar) && Holds16(s, 11, v.bottomBar)
            && Holds16(s, 13, v.leftBar) && Holds16(s, 15, v.rightBar)
  {
    PayloadAt(f, size);
    AviFirstBits(f.avi);
    AviOtherBits(f.avi);
    AviBars(f, size);
    hide Image, AviByte1, AviByte2, AviByte3, AviByte5, Holds16, Check;
  }

  lemma AviBars(f: Infoframe, size: nat)
    requires f.AviFrame? && Check(f) && size >= 17
    ensures var s, v := Image(f, size), f.avi;
            && Holds16(s, 9, v.topBar) && Holds16(s, 11, v.bottomBar)
            && Holds16(s, 13, v.leftBar) && Holds16(s, 15, v.rightBar)
  {
    var s, v := Image(f, size), f.avi;
    PayloadAt(f, size);
    hide Image, Low, High, Holds16;
    BytesHold(s, 9, v.topBar);
    BytesHold(s, 11, v.bottomBar);
    BytesHold(s, 13, v.leftBar);
    BytesHold(s, 15, v.rightBar);
  }

  /** Source product description: type 0x83, version 1, 25 bytes. */
  lemma SpdOnTheWire(f: Infoframe, size: nat)
    requires f.SpdFrame? && Shaped(f) && Check(f) && size >= 29
    ensures var s := Image(f, size);
            && s[0] == 0x83 && s[1] == 1 && s[2] == 25
            && s[4..12] == f.spd.vendor && s[12..28] == f.spd.product && s[28] == f.spd.sdi
  {
    PayloadAt(f, size);
    var s, p := Image(f, size), Payload(f);
    assert forall k :: 4 <= k < 29 ==> s[k] == p[k - 4];
    hide Image;
  }

  lemma AudioBits(v: Audio)
    ensures var b := AudioByte1(v, PackedChannels(v.channels));
            && b >> 4 == v.codingType & 0xf && b & 8 == 0
            && b & 7 == (if v.channels >= 2 then (v.channels - 1) & 7 else 0)
    ensures var b := AudioByte2(v);
            b >> 5 == 0 && (b >> 2) & 7 == v.sampleFrequency & 7 && b & 3 == v.sampleSize & 3
    ensures var b := v.codingTypeExt & 0x1f; b >> 5 == 0 && b & 0x1f == v.codingTypeExt & 0x1f
    ensures var b := AudioByte5(v);
            (b & 0x80 != 0 <==> v.downmixInhibit) && (b >> 3) & 0xf == v.levelShiftValue & 0xf && b & 7 == 0
  {
  }

  /** Audio: type 0x84, version 1, 10 bytes. */
  lemma AudioOnTheWire(f: Infoframe, size: nat)
    requires f.AudioFrame? && Check(f) && size >= 14
    ensures var s, v := Image(f, size), f.audio;
            && s[0] == 0x84 && s[1] == 1 && s[2] == 10
            && s[4] >> 4 == v.codingType & 0xf && s[4] & 8 == 0
            && s[4] & 7 == (if v.channels >= 2 then (v.channels - 1) & 7 else 0)
            && s[5] >> 5 == 0 && (s[5] >> 2) & 7 == v.sampleFrequency & 7 && s[5] & 3 == v.sampleSize & 3
            && s[6] >> 5 == 0 && s[6] & 0x1f == v.codingTypeExt & 0x1f && s[7] == v.channelAllocation
            && (s[8] & 0x80 != 0 <==> v.downmixInhibit) && (s[8] >> 3) & 0xf == v.levelShiftValue & 0xf
            && s[8] & 7 == 0 && s[9..14] == [0, 0, 0, 0, 0]
  {
    PayloadAt(f, size);
    AudioBits(f.audio);
    var s, p := Image(f, size), AudioPayload(f.audio);
    assert s[9..14] == p[5..10] == p[5..];
    hide Image, AudioByte1, AudioByte2, AudioByte5, PackedChannels;
  }

  /** HDMI vendor specific: type 0x81, version 1, the identifier 0x000c03 with the low byte first,
      the format in the top three bits, then the video code or the 3D structure. */
  lemma VendorOnTheWire(f: Infoframe, size: nat)
    requires f.VendorFrame? && Check(f) && size >= 4 + f.length as int
    ensures var s, v := Image(f, size), f.vendor;
            && s[0] == 0x81 && s[1] == 1 && s[4] == 0x03 && s[5] == 0x0c && s[6] == 0x00 && s[7] & 0x1f == 0
            && (v.structure.Some? ==>
                  && s[7] >> 5 == 2 && s[8] >> 4 == v.structure.value & 0xf && s[8] & 0xf == 0
                  && (v.structure.value < 8 ==> s[2] == 5)
                  && (v.structure.value >= 8 ==> s[2] == 6 && s[9] >> 4 == v.extension & 0xf && s[9] & 0xf == 0))
            && (v.structure.None? && v.vic != 0 ==> s[2] == 5 && s[7] >> 5 == 1 && s[8] == v.vic)
            && (v.structure.None? && v.vic == 0 ==> s[2] == 4 && s[7] >> 5 == 0)
  {
    PayloadAt(f, size);
    hide Image;
  }

  /** Dynamic range and mastering: type 0x87, version 1, 26 bytes. */
  lemma DrmOnTheWire(f: Infoframe, size: nat)
    requires f.DrmFrame? && Shaped(f) && Check(f) && size >= 30
    ensures var s, v := Image(f, size), f.drm;
            && s[0] == 0x87 && s[1] == 1 && s[2] == 26 && s[4] == v.eotf && s[5] == v.metadataType
            && (forall i :: 0 <= i < 3 ==>
                  Holds16(s, 6 + 4 * i, v.primaries[i].x) && Holds16(s, 8 + 4 * i, v.primaries[i].y))
            && Holds16(s, 18, v.whitePoint.x) && Holds16(s, 20, v.whitePoint.y)
            && Holds16(s, 22, v.maxLuminance) && Holds16(s, 24, v.minLuminance)
            && Holds16(s, 26, v.maxCll) && Holds16(s, 28, v.maxFall)
  {
    hide Image, Holds16, Payload;
    var v := f.drm;
    DrmHead(f, size);
    forall i | 0 <= i < 3
      ensures Holds16(Image(f, size), 6 + 4 * i, v.primaries[i].x)
              && Holds16(Image(f, size), 8 + 4 * i, v.primaries[i].y)
    {
      DrmPoint(f, size, i, v.primaries[i]);
    }
    DrmPoint(f, size, 3, v.whitePoint);
    DrmPoint(f, size, 4, Point(v.maxLuminance, v.minLuminance));
    DrmPoint(f, size, 5, Point(v.maxCll, v.maxFall));
    hide Points, Image;
  }

  lemma DrmHead(f: Infoframe, size: nat)
    requires f.DrmFrame? && Shaped(f) && Check(f) && size >= 30
    ensures var s := Image(f, size);
            s[0] == 0x87 && s[1] == 1 && s[2] == 26 && s[4] == f.drm.eotf && s[5] == f.drm.metadataType
  {
    PayloadAt(f, size);
    hide Image;
  }

  lemma DrmPoint(f: Infoframe, size: nat, k: nat, p: Point)
    requires f.DrmFrame? && Shaped(f) && Check(f) && size >= 30 && k < 6 && p == Points(f.drm)[k]
    ensures Holds16(Image(f, size), 6 + 4 * k, p.x) && Holds16(Image(f, size), 8 + 4 * k, p.y)
  {
    var s, v := Image(f, size), f.drm;
    PayloadAt(f, size);
    PointOnTheWire([v.eotf, v.metadataType], Points(v), k);
    hide Image, Low, High, Points, PointsBytes, Holds16;
    BytesHold(s, 6 + 4 * k, p.x);
    BytesHold(s, 8 + 4 * k, p.y);
  }

  lemma {:induction false} PointOnTheWire(head: Bytes, ps: seq<Point>, k: nat)
    requires k < |ps|
    ensures var s, at := head + PointsBytes(ps), |head| + 4 * k;
            && s[at] == Low(ps[k].x) && s[at + 1] == High(ps[k].x)
            && s[at + 2] == Low(ps[k].y) && s[at + 3] == High(ps[k].y)
    decreases k
  {
    if k > 0 {
      PointOnTheWire(head + PointBytes(ps[0]), ps[1..], k - 1);
      assert head + PointsBytes(ps) == (head + PointBytes(ps[0])) + PointsBytes(ps[1..]);
    }
  }

  // --------------------------------------------------------- any packed frame

  /** The buffers that unpacking accepts: a whole frame with a known header, whose bytes sum to
      zero. */
  lemma AcceptedIff(s: Bytes)
    ensures Accepted(s) <==>
              && |s| >= 4 && 4 + s[2] as int <= |s| && Total(s[..4 + s[2] as int]) % 256 == 0
              && (|| (s[0] == 0x82 && s[1] == 2 && s[2] == 13)
                  || (s[0] == 0x83 && s[1] == 1 && s[2] == 25)
                  || (s[0] == 0x84 && s[1] == 1 && s[2] == 10)
                  || (s[0] == 0x87 && s[1] == 1 && s[2] == 26)
                  || (s[0] == 0x81 && s[1] == 1 && 4 <= s[2] <= 6))
  {
    if |s| >= 4 {
      OctetOf(s[2]);
    }
  }

  lemma OctetOf(b: bv8)
    ensures b == 13 ==> b as int == 13
    ensures b == 25 ==> b as int == 25
    ensures b == 10 ==> b as int == 10
    ensures b == 26 ==> b as int == 26
    ensures b as int == 13 ==> b == 13
    ensures b as int == 25 ==> b == 25
    ensures b as int == 10 ==> b == 10
    ensures b as int == 26 ==> b == 26
  {
  }

  lemma AviDecodes(s: Bytes)
    requires Accepted(s) && s[0] == 0x82
    ensures Decode(s) == Some(AviFrame(2, 13, AviFields(s[4..])))
  {
    AcceptedIff(s);
    hide Accepted, Checksum, AviFields;
  }

  lemma BarFields(p: Bytes)
    requires |p| >= 13
    ensures AviFields(p).topBar == (if p[0] & 0x08 != 0 then Join(p[6], p[5]) else 0)
    ensures AviFields(p).bottomBar == (if p[0] & 0x08 != 0 then Join(p[8], p[7]) else 0)
    ensures AviFields(p).leftBar == (if p[0] & 0x04 != 0 then Join(p[10], p[9]) else 0)
    ensures AviFields(p).rightBar == (if p[0] & 0x04 != 0 then Join(p[12], p[11]) else 0)
  {
    hide Join;
  }

  /** The bars are read only if the frame says that they are there. */
  lemma BarsFromTheWire(s: Bytes)
    requires |s| >= 17
    ensures var v := AviFields(s[4..]);
            && (if s[4] & 0x08 != 0 then Holds16(s, 9, v.topBar) && Holds16(s, 11, v.bottomBar)
                else v.topBar == 0 == v.bottomBar)
            && (if s[4] & 0x04 != 0 then Holds16(s, 13, v.leftBar) && Holds16(s, 15, v.rightBar)
                else v.leftBar == 0 == v.rightBar)
  {
    hide Join, Holds16, AviFields;
    BarFields(s[4..]);
    JoinHolds(s, 9);
    JoinHolds(s, 11);
    JoinHolds(s, 13);
    JoinHolds(s, 15);
  }

  /** What is read from any accepted buffer, whoever packed it. */
  lemma AviFromTheWire(s: Bytes)
    requires Accepted(s) && s[0] == 0x82
    ensures Decode(s).Some? && Decode(s).value.AviFrame? && Decode(s).value.version == 2 && Decode(s).value.length == 13
    ensures var v := Decode(s).value.avi;
            && v.colorspace == (s[4] >> 5) & 3 && v.scanMode == s[4] & 3 && v.colorimetry == (s[5] >> 6) & 3
            && v.pictureAspect == (s[5] >> 4) & 3 && v.activeAspect == s[5] & 0xf && (v.itc <==> s[6] & 0x80 != 0)
            && v.extendedColorimetry == (s[6] >> 4) & 7 && v.quantizationRange == (s[6] >> 2) & 3 && v.nups == s[6] & 3
            && v.videoCode == s[7] & 0x7f && v.yccQuantizationRange == (s[8] >> 6) & 3
            && v.contentType == (s[8] >> 4) & 3 && v.pixelRepeat == s[8] & 0xf
            && (if s[4] & 0x08 != 0 then Holds16(s, 9, v.topBar) && Holds16(s, 11, v.bottomBar)
                else v.topBar == 0 == v.bottomBar)
            && (if s[4] & 0x04 != 0 then Holds16(s, 13, v.leftBar) && Holds16(s, 15, v.rightBar)
                else v.leftBar == 0 == v.rightBar)
  {
    AviDecodes(s);
    AcceptedIff(s);
    BarsFromTheWire(s);
    hide Accepted, Decode, Join, Holds16;
  }

  predicate NulWithin(s: Bytes, at: nat, end: nat)
    requires end <= |s|
  {
    exists k :: at <= k < end && s[k] == 0
  }

  /** Fields are read up to their NUL, and zeros behind it. */
  predicate ReadsString(s: Bytes, at: nat, field: Bytes)
    requires at + |field| <= |s|
  {
    forall i :: 0 <= i < |field| ==> field[i] == if NulWithin(s, at, at + i + 1) then 0 else s[at + i]
  }

  lemma CopyReadsString(s: Bytes, at: nat, n: nat)
    requires at + n <= |s|
    ensures |Copied(s[at..], n)| == n && ReadsString(s, at, Copied(s[at..], n))
  {
    var t := s[at..];
    StrLenIs(t);
    var copy := Copied(t, n);
    forall i | 0 <= i < n
      ensures copy[i] == if NulWithin(s, at, at + i + 1) then 0 else s[at + i]
    {
      if i < StrLen(t) {
        assert forall k :: at <= k < at + i + 1 ==> s[k] == t[k - at];
      } else {
        assert s[at + StrLen(t)] == t[StrLen(t)] == 0;
      }
    }
  }

  lemma SpdFromTheWire(s: Bytes)
    requires Accepted(s) && s[0] == 0x83
    ensures Decode(s).Some? && Decode(s).value.SpdFrame? && Decode(s).value.version == 1 && Decode(s).value.length == 25
    ensures var v := Decode(s).value.spd;
            && |v.vendor| == 8 && ReadsString(s, 4, v.vendor) && |v.product| == 16 && ReadsString(s, 12, v.product)
            && v.sdi == s[28]
  {
    CopyReadsString(s, 4, 8);
    CopyReadsString(s, 12, 16);
    assert s[4..][8..] == s[12..];
    hide Checksum, Copied, ReadsString;
  }

  lemma AudioFromTheWire(s: Bytes)
    requires Accepted(s) && s[0] == 0x84
    ensures Decode(s).Some? && Decode(s).value.AudioFrame? && Decode(s).value.version == 1
            && Decode(s).value.length == 10
    ensures var v := Decode(s).value.audio;
            && v.channels == s[4] & 7 && v.codingType == (s[4] >> 4) & 0xf && v.sampleSize == s[5] & 3
            && v.sampleFrequency == (s[5] >> 2) & 7 && v.codingTypeExt == s[6] & 0x1f && v.channelAllocation == s[7]
            && v.levelShiftValue == (s[8] >> 3) & 0xf && (v.downmixInhibit <==> s[8] & 0x80 != 0)
  {
    hide Checksum;
  }

  /** A vendor frame is refused unless it has the identifier and the length of its format. */
  lemma VendorFromTheWire(s: Bytes)
    requires Accepted(s) && s[0] == 0x81
    ensures var d, format := Decode(s), s[7] >> 5;
            && (d.Some? <==>
                  && s[4] == 0x03 && s[5] == 0x0c && s[6] == 0x00
                  && ((format == 0 && s[2] == 4) || (format == 1 && s[2] == 5)
                      || (format == 2 && (s[2] == 6 || (s[2] == 5 && s[8] >> 4 < 8)))))
            && (d.Some? ==> d.value.VendorFrame? && d.value.version == 1)
            && (d.Some? ==> d.value.length == s[2] && d.value.oui == 0x000c03)
            && (d.Some? && format == 0 ==> d.value.vendor == Vendor(0, None, 0))
            && (d.Some? && format == 1 ==> d.value.vendor == Vendor(s[8], None, 0))
            && (d.Some? && format == 2 ==>
                  d.value.vendor == Vendor(0, Some(s[8] >> 4), if s[8] >> 4 >= 8 then s[9] >> 4 else 0))
  {
    hide Checksum;
  }

  lemma DrmFromTheWire(s: Bytes)
    requires Accepted(s) && s[0] == 0x87
    ensures Decode(s).Some? && Decode(s).value.DrmFrame? && Decode(s).value.version == 1 && Decode(s).value.length == 26
    ensures var v := Decode(s).value.drm;
            && v.eotf == s[4] & 7 && v.metadataType == s[5] & 7 && |v.primaries| == 3
            && (forall i :: 0 <= i < 3 ==>
                  Holds16(s, 6 + 4 * i, v.primaries[i].x) && Holds16(s, 8 + 4 * i, v.primaries[i].y))
            && Holds16(s, 18, v.whitePoint.x) && Holds16(s, 20, v.whitePoint.y)
            && Holds16(s, 22, v.maxLuminance) && Holds16(s, 24, v.minLuminance)
            && Holds16(s, 26, v.maxCll) && Holds16(s, 28, v.maxFall)
  {
    forall k: nat | k < 12
      ensures Holds16(s, 6 + 2 * k, Join(s[6 + 2 * k + 1], s[6 + 2 * k]))
    {
      JoinHolds(s, 6 + 2 * k);
    }
    hide Checksum, Join, Holds16;
    var p, v := s[4..], Decode(s).value.drm;
    assert v.primaries[0] == PointAt(p, 2) && v.primaries[1] == PointAt(p, 6) && v.primaries[2] == PointAt(p, 10);
    assert Holds16(s, 6 + 2 * 0, v.primaries[0].x) && Holds16(s, 6 + 2 * 1, v.primaries[0].y);
    assert Holds16(s, 6 + 2 * 2, v.primaries[1].x) && Holds16(s, 6 + 2 * 3, v.primaries[1].y);
    assert Holds16(s, 6 + 2 * 4, v.primaries[2].x) && Holds16(s, 6 + 2 * 5, v.primaries[2].y);
    assert Holds16(s, 6 + 2 * 6, v.whitePoint.x) && Holds16(s, 6 + 2 * 7, v.whitePoint.y);
    assert Holds16(s, 6 + 2 * 8, v.maxLuminance) && Holds16(s, 6 + 2 * 9, v.minLuminance);
    assert Holds16(s, 6 + 2 * 10, v.maxCll) && Holds16(s, 6 + 2 * 11, v.maxFall);
  }
}
