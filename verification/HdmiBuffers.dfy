/** Infoframes written to and read from buffers in place (hdmi.c). */
module HdmiBuffers {
  import opened Fences
  import opened Infoframes
  import opened Hdmi

  /** The buffer with some bytes written over those from position at on. */
  function Overwritten(s: Bytes, at: nat, p: Bytes): (r: Bytes)
    requires at + |p| <= |s|
  {
    s[..at] + p + s[at + |p|..]
  }

  /** Clears the buffer and writes the header, with no checksum yet. */
  method Begin(kind: bv8, version: bv8, length: bv8, buffer: array<bv8>)
    requires buffer.Length >= 4
    modifies buffer
    ensures buffer[..] == [kind, version, length, 0] + Zeros(buffer.Length - 4)
  {
    var i := 0;
    while i < buffer.Length
      invariant i <= buffer.Length && forall k :: 0 <= k < i ==> buffer[k] == 0
    {
      buffer[i] := 0;
      i := i + 1;
    }
    buffer[0], buffer[1], buffer[2] := kind, version, length;
  }

  /** The same byte by byte. */
  ghost predicate Wrote(s: Bytes, t: Bytes, at: nat, p: Bytes) {
    && at + |p| <= |s| == |t|
    && (forall k :: 0 <= k < |p| ==> t[at + k] == p[k])
    && (forall k :: 0 <= k < at || at + |p| <= k < |s| ==> t[k] == s[k])
  }

  lemma WroteIs(s: Bytes, t: Bytes, at: nat, p: Bytes)
    requires Wrote(s, t, at, p)
    ensures t == Overwritten(s, at, p)
  {
    forall k | 0 <= k < |t|
      ensures t[k] == Overwritten(s, at, p)[k]
    {
      if at <= k < at + |p| {
        assert t[at + (k - at)] == p[k - at];
      }
    }
  }

  /** Writing p and then q right behind it. */
  lemma WroteMore(s: Bytes, t: Bytes, u: Bytes, at: nat, p: Bytes, q: Bytes)
    requires Wrote(s, t, at, p) && Wrote(t, u, at + |p|, q)
    ensures Wrote(s, u, at, p + q)
  {
    forall k | 0 <= k < |p + q|
      ensures u[at + k] == (p + q)[k]
    {
      if k >= |p| {
        assert u[at + |p| + (k - |p|)] == q[k - |p|];
      } else {
        assert t[at + k] == p[k];
      }
    }
  }

  /** The flags of the first byte, one after the other. */
  method AviFlags(f: Avi) returns (b: bv8)
    ensures b == AviByte1(f)
  {
    hide Flag;
    b := ((f.colorspace & 0x3) << 5) | (f.scanMode & 0x3);
    b := SetBit(b, f.activeAspect & 0xf != 0, 0x10);
    b := SetBit(b, f.topBar != 0 || f.bottomBar != 0, 0x8);
    b := SetBit(b, f.leftBar != 0 || f.rightBar != 0, 0x4);
  }

  method SetBit(b: bv8, flag: bool, bit: bv8) returns (r: bv8)
    ensures r == b | Flag(flag, bit)
  {
    r := b;
    if flag {
      r := r | bit;
    }
  }

  method AviRange(f: Avi) returns (b: bv8)
    ensures b == AviByte3(f)
  {
    b := ((f.extendedColorimetry & 0x7) << 4) | ((f.quantizationRange & 0x3) << 2) | (f.nups & 0x3);
    if f.itc {
      b := b | 0x80;
    }
  }

  method WriteAvi(f: Avi, buffer: array<bv8>)
    requires buffer.Length >= 17
    modifies buffer
    ensures Wrote(old(buffer[..]), buffer[..], 4, AviPayload(f))
  {
    var flags := AviFlags(f);
    var range := AviRange(f);
    ghost var s0 := buffer[..];
    WriteFive(flags, AviByte2(f), range, f.videoCode & 0x7f, AviByte5(f), buffer);
    ghost var s1, head := buffer[..], [flags, AviByte2(f), range, f.videoCode & 0x7f, AviByte5(f)];
    WritePoint(Point(f.topBar, f.bottomBar), buffer, 9);
    ghost var s2 := buffer[..];
    WritePoint(Point(f.leftBar, f.rightBar), buffer, 13);
    WroteMore(s0, s1, s2, 4, head, PointBytes(Point(f.topBar, f.bottomBar)));
    WroteMore(s0, s2, buffer[..], 4, head + PointBytes(Point(f.topBar, f.bottomBar)),
              PointBytes(Point(f.leftBar, f.rightBar)));
  }

  method WriteFive(a: bv8, b: bv8, c: bv8, d: bv8, e: bv8, buffer: array<bv8>)
    requires buffer.Length >= 9
    modifies buffer
    ensures Wrote(old(buffer[..]), buffer[..], 4, [a, b, c, d, e])
  {
    buffer[4], buffer[5], buffer[6], buffer[7], buffer[8] := a, b, c, d, e;
  }

  method WritePoint(p: Point, buffer: array<bv8>, at: nat)
    requires at + 4 <= buffer.Length
    modifies buffer
    ensures Wrote(old(buffer[..]), buffer[..], at, PointBytes(p))
  {
    buffer[at], buffer[at + 1] := Low(p.x), High(p.x);
    buffer[at + 2], buffer[at + 3] := Low(p.y), High(p.y);
  }

  /** memcpy. */
  method Copy(s: Bytes, buffer: array<bv8>, at: nat)
    requires at + |s| <= buffer.Length
    modifies buffer
    ensures Wrote(old(buffer[..]), buffer[..], at, s)
  {
    var i := 0;
    while i < |s|
      invariant i <= |s|
      invariant forall k :: 0 <= k < buffer.Length ==>
                  buffer[k] == if at <= k < at + i then s[k - at] else old(buffer[k])
    {
      buffer[at + i] := s[i];
      i := i + 1;
    }
  }

  method WriteSpd(f: Spd, buffer: array<bv8>)
    requires buffer.Length >= 29 && |f.vendor| == 8 && |f.product| == 16
    modifies buffer
    ensures Wrote(old(buffer[..]), buffer[..], 4, SpdPayload(f))
  {
    ghost var s0 := buffer[..];
    Copy(f.vendor, buffer, 4);
    ghost var s1 := buffer[..];
    Copy(f.product, buffer, 12);
    ghost var s2 := buffer[..];
    buffer[28] := f.sdi;
    WroteMore(s0, s1, s2, 4, f.vendor, f.product);
    WroteMore(s0, s2, buffer[..], 4, f.vendor + f.product, [f.sdi]);
  }

  method AudioLevel(f: Audio) returns (b: bv8)
    ensures b == AudioByte5(f)
  {
    b := (f.levelShiftValue & 0xf) << 3;
    if f.downmixInhibit {
      b := b | 0x80;
    }
  }

  /** The payload has been cleared. */
  method WriteAudio(f: Audio, buffer: array<bv8>)
    requires buffer.Length >= 14 && forall k :: 4 <= k < 14 ==> buffer[k] == 0
    modifies buffer
    ensures Wrote(old(buffer[..]), buffer[..], 4, AudioPayload(f))
  {
    var channels := if f.channels >= 2 then f.channels - 1 else 0;
    var level := AudioLevel(f);
    ghost var s0 := buffer[..];
    WriteFive(AudioByte1(f, channels), AudioByte2(f), f.codingTypeExt & 0x1f, f.channelAllocation, level, buffer);
    ghost var s1 := buffer[..];
    StaysBlank(s0, s1, AudioHead(f));
    WroteMore(s0, s1, s1, 4, AudioHead(f), [0, 0, 0, 0, 0]);
  }

  lemma StaysBlank(s: Bytes, t: Bytes, head: Bytes)
    requires |s| >= 14 && |head| == 5 && Wrote(s, t, 4, head) && forall k :: 4 <= k < 14 ==> s[k] == 0
    ensures Wrote(t, t, 9, [0, 0, 0, 0, 0])
  {
  }

  method WriteVendor(f: Vendor, buffer: array<bv8>)
    requires f.vic == 0 || f.structure.None?
    requires buffer.Length >= 4 + VendorLength(f) as int
    modifies buffer
    ensures Wrote(old(buffer[..]), buffer[..], 4, VendorPayload(f))
  {
    ghost var s0 := buffer[..];
    buffer[4], buffer[5], buffer[6] := 0x03, 0x0c, 0x00;
    ghost var s1 := buffer[..];
    WriteVendorTail(f, buffer);
    WroteMore(s0, s1, buffer[..], 4, [0x03, 0x0c, 0x00], VendorTail(f));
  }

  method WriteVendorTail(f: Vendor, buffer: array<bv8>)
    requires f.vic == 0 || f.structure.None?
    requires buffer.Length >= 4 + VendorLength(f) as int
    modifies buffer
    ensures Wrote(old(buffer[..]), buffer[..], 7, VendorTail(f))
  {
    if f.structure.Some? {
      var structure, extension := (f.structure.value & 0xf) << 4, (f.extension & 0xf) << 4;
      buffer[7] := 0x40;
      buffer[8] := structure;
      if f.structure.value >= SIDE_BY_SIDE_HALF {
        buffer[9] := extension;
      }
    } else if f.vic != 0 {
      buffer[7] := 0x20;
      buffer[8] := f.vic;
    } else {
      buffer[7] := 0x00;
    }
  }

  method WriteDrm(f: Drm, buffer: array<bv8>)
    requires buffer.Length >= 30 && |f.primaries| == 3
    modifies buffer
    ensures Wrote(old(buffer[..]), buffer[..], 4, DrmPayload(f))
  {
    hide PointBytes, Wrote;
    ghost var s0, head := buffer[..], [f.eotf, f.metadataType];
    WritePrimaries(f, buffer);
    ghost var s2 := buffer[..];
    WritePoint(f.whitePoint, buffer, 18);
    NextPoint(s0, s2, buffer[..], head, Points(f), 3);
    ghost var s3 := buffer[..];
    WritePoint(Point(f.maxLuminance, f.minLuminance), buffer, 22);
    NextPoint(s0, s3, buffer[..], head, Points(f), 4);
    ghost var s4 := buffer[..];
    WritePoint(Point(f.maxCll, f.maxFall), buffer, 26);
    NextPoint(s0, s4, buffer[..], head, Points(f), 5);
    assert Points(f)[..6] == Points(f);
  }

  method WritePrimaries(f: Drm, buffer: array<bv8>)
    requires buffer.Length >= 30 && |f.primaries| == 3
    modifies buffer
    ensures Wrote(old(buffer[..]), buffer[..], 4, [f.eotf, f.metadataType] + PointsBytes(Points(f)[..3]))
  {
    ghost var s0, head := buffer[..], [f.eotf, f.metadataType];
    buffer[4], buffer[5] := f.eotf, f.metadataType;
    var at, i := 6, 0;
    assert head + PointsBytes(Points(f)[..0]) == head;
    while i < 3
      invariant i <= 3 && at == 6 + 4 * i
      invariant Wrote(s0, buffer[..], 4, head + PointsBytes(Points(f)[..i]))
    {
      ghost var s1 := buffer[..];
      WritePoint(f.primaries[i], buffer, at);
      NextPoint(s0, s1, buffer[..], head, Points(f), i);
      at, i := at + 4, i + 1;
    }
  }

  lemma NextPoint(s: Bytes, t: Bytes, u: Bytes, head: Bytes, ps: seq<Point>, i: nat)
    requires i < |ps| && |head| == 2
    requires Wrote(s, t, 4, head + PointsBytes(ps[..i])) && Wrote(t, u, 6 + 4 * i, PointBytes(ps[i]))
    ensures Wrote(s, u, 4, head + PointsBytes(ps[..i + 1]))
  {
    WroteMore(s, t, u, 4, head + PointsBytes(ps[..i]), PointBytes(ps[i]));
    PointsBytesPush(ps[..i], ps[i]);
    assert ps[..i + 1] == ps[..i] + [ps[i]];
    assert head + PointsBytes(ps[..i]) + PointBytes(ps[i]) == head + PointsBytes(ps[..i + 1]);
  }

  lemma {:induction false} PointsBytesPush(ps: seq<Point>, p: Point)
    ensures PointsBytes(ps + [p]) == PointsBytes(ps) + PointBytes(p)
  {
    if ps != [] {
      PointsBytesPush(ps[1..], p);
      assert (ps + [p])[1..] == ps[1..] + [p];
    } else {
      assert ps + [p] == [p];
    }
  }

  /** hdmi_infoframe_set_checksum. */
  method SetChecksum(buffer: array<bv8>, size: nat)
    requires 4 <= size <= buffer.Length
    modifies buffer
    ensures buffer[..] == Sealed(old(buffer[..size])) + old(buffer[size..])
  {
    var c := ComputeChecksum(buffer, size);
    buffer[3] := c as bv8;
  }

  /** hdmi_infoframe_pack. */
  method Pack(f: Infoframe, buffer: array<bv8>) returns (r: PackResult)
    requires Shaped(f)
    modifies buffer
    ensures r == if !Check(Derived(f)) then Invalid
                 else if buffer.Length < 4 + Derived(f).length as int then NoSpace
                 else Packed(4 + Derived(f).length as int)
    ensures r.Packed? ==> buffer[..] == Image(Derived(f), buffer.Length)
    ensures !r.Packed? ==> buffer[..] == old(buffer[..])
  {
    hide Checksum, Total;
    var g := Derived(f);
    if !Check(g) {
      return Invalid;
    }
    var size := 4 + g.length as int;
    if buffer.Length < size {
      return NoSpace;
    }
    Begin(Kind(g), g.version, g.length, buffer);
    ghost var blank := buffer[..];
    WritePayload(g, buffer);
    WroteIs(blank, buffer[..], 4, Payload(g));
    BlankIsFilled(g, blank, buffer[..]);
    SetChecksum(buffer, size);
    return Packed(size);
  }

  lemma BlankIsFilled(f: Infoframe, blank: Bytes, s: Bytes)
    requires Shaped(f) && Check(f) && |blank| >= 4 + f.length as int
    requires blank == [Kind(f), f.version, f.length, 0] + Zeros(|blank| - 4) && s == Overwritten(blank, 4, Payload(f))
    ensures var size := 4 + f.length as int;
            s[..size] == Unsealed(f) && s[size..] == Zeros(|s| - size)
  {
    var size := 4 + f.length as int;
    var p := Payload(f);
    assert |p| == size - 4 && s[..size] == blank[..4] + p;
    assert blank[..4] == [Kind(f), f.version, f.length, 0];
    ZerosFrom(s, blank, size);
  }

  lemma ZerosFrom(s: Bytes, blank: Bytes, size: nat)
    requires 4 <= size <= |s| == |blank|
    requires s[size..] == blank[size..] && blank[4..] == Zeros(|s| - 4)
    ensures s[size..] == Zeros(|s| - size)
  {
    forall k | 0 <= k < |s| - size
      ensures s[size..][k] == Zeros(|s| - size)[k]
    {
      assert s[size..][k] == blank[size..][k] == blank[4..][size - 4 + k];
    }
  }

  method WritePayload(f: Infoframe, buffer: array<bv8>)
    requires Shaped(f) && Check(f) && buffer.Length >= 4 + f.length as int
    requires forall k :: 4 <= k < buffer.Length ==> buffer[k] == 0
    modifies buffer
    ensures Wrote(old(buffer[..]), buffer[..], 4, Payload(f))
  {
    match f
    case AviFrame(_, _, avi) => WriteAvi(avi, buffer);
    case SpdFrame(_, _, spd) => WriteSpd(spd, buffer);
    case AudioFrame(_, _, audio) => WriteAudio(audio, buffer);
    case VendorFrame(_, _, _, vendor) => WriteVendor(vendor, buffer);
    case DrmFrame(_, _, drm) => WriteDrm(drm, buffer);
  }

  /** hdmi_infoframe_unpack. */
  method Unpack(buffer: array<bv8>) returns (r: Option<Infoframe>)
    ensures r == Decode(buffer[..])
  {
    if buffer.Length < 4 || buffer.Length < Minimum(buffer[0]) {
      return None;
    }
    var kind, length := buffer[0], buffer[2];
    if buffer[1] != (if kind == AVI then 2 else 1) {
      return None;
    }
    if kind == VENDOR {
      if (length != 4 && length != 5 && length != 6) || buffer.Length < 4 + length as int {
        return None;
      }
    } else if kind !in {AVI, SPD, AUDIO, DRM} || length as int != Minimum(kind) - 4 {
      return None;
    }
    var c := ComputeChecksum(buffer, 4 + length as int);
    if c != 0 {
      return None;
    }
    var p := buffer[4..];
    assert p == buffer[..][4..] && buffer[..][..4 + length as int] == buffer[..4 + length as int];
    if kind == VENDOR {
      var v := VendorFields(p, length);
      return if v.None? then None else Some(VendorFrame(1, length, HDMI_OUI, v.value));
    }
    return if kind == AVI then Some(AviFrame(2, 13, AviFields(p)))
           else if kind == SPD then Some(SpdFrame(1, 25, SpdFields(p)))
           else if kind == AUDIO then Some(AudioFrame(1, 10, AudioFields(p)))
           else Some(DrmFrame(1, 26, DrmFields(p)));
  }
}
