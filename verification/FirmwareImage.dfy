/** The firmware artifact: a 160-byte header and the raw payload (firmware/image_format.py). */
module FirmwareImage {
  import opened Base

  const MAGIC: Bytes := [0x56, 0x4F, 0x54, 0x41, 0x49, 0x4D, 0x47, 0x31]  // "VOTAIMG1"
  const FORMAT_VERSION: byte := 1
  const HEADER_SIZE := 160

  /** The digests and the payload generator, whose algorithms are not part of the model. */
  datatype Primitives = Primitives(sha256: Bytes -> Bytes, crc32: Bytes -> nat, generate: ImageSpec -> Bytes) {
    ghost predicate Valid() {
      && (forall p :: |sha256(p)| == 32)
      && (forall p :: crc32(p) < TWO_POW_32)
    }
  }

  datatype ImageSpec = ImageSpec(
    ecuName: string, ecuId: int, partNumber: string, currentVersion: string, targetVersion: string,
    buildDate: string, buildNumber: int, flashAddress: int, payloadSize: int, imageFormat: string,
    payloadData: Option<Bytes>)

  datatype Metadata = Metadata(
    ecuName: string, ecuId: nat, partNumber: string, currentVersion: string, targetVersion: string,
    buildDate: string, buildNumber: nat, flashAddress: nat, payloadSize: nat, imageSize: nat,
    crc32: nat, payloadSha256: Bytes, imageFormat: string)

  datatype ImageError = PayloadSizeMismatch | FieldOutOfRange | TooSmall | BadMagic | BadVersion | BadHeaderSize
                      | PayloadTruncated

  // ----- text fields

  /** `encode("ascii", errors="ignore")`. */
  function EncodeAscii(v: string): Bytes {
    if v == "" then []
    else (if v[0] as int < 128 then [v[0] as int] else []) + EncodeAscii(v[1..])
  }

  /** `decode("ascii", errors="ignore")`. */
  function DecodeAscii(b: Bytes): string {
    if b == [] then ""
    else (if b[0] < 128 then [b[0] as char] else []) + DecodeAscii(b[1..])
  }

  function Zeros(n: nat): (r: Bytes)
    ensures |r| == n && forall i | 0 <= i < n :: r[i] == 0
  {
    seq(n, _ => 0)
  }

  function PadText(v: string, size: nat): (r: Bytes)
    ensures |r| == size
  {
    var data := EncodeAscii(v);
    if |data| > size then data[..size] else data + Zeros(size - |data|)
  }

  function StripZeros(b: Bytes): Bytes {
    if b != [] && b[|b| - 1] == 0 then StripZeros(b[..|b| - 1]) else b
  }

  function UnpadText(b: Bytes): string {
    DecodeAscii(StripZeros(b))
  }

  predicate IsAscii(v: string) {
    forall i | 0 <= i < |v| :: v[i] as int < 128
  }

  /** The text a field of `size` bytes can hold. */
  predicate Representable(v: string, size: nat) {
    IsAscii(v) && |v| <= size && (v != "" ==> v[|v| - 1] as int != 0)
  }

  lemma {:induction false} EncodeAsciiShape(v: string)
    ensures |EncodeAscii(v)| <= |v|
    ensures forall i | 0 <= i < |EncodeAscii(v)| :: EncodeAscii(v)[i] < 128
    ensures |EncodeAscii(v)| == |v| ==> IsAscii(v) && forall i | 0 <= i < |v| :: EncodeAscii(v)[i] == v[i] as int
    ensures IsAscii(v) ==> |EncodeAscii(v)| == |v|
  {
    if v != "" {
      EncodeAsciiShape(v[1..]);
      if IsAscii(v) {
        assert IsAscii(v[1..]) by {
          forall i | 0 <= i < |v| - 1 ensures v[1..][i] as int < 128 { assert v[i + 1] as int < 128; }
        }
      }
      if |EncodeAscii(v)| == |v| {
        forall i | 0 <= i < |v| ensures v[i] as int < 128 && EncodeAscii(v)[i] == v[i] as int {
          if i > 0 { assert v[i] == v[1..][i - 1]; }
        }
      }
    }
  }

  lemma {:induction false} DecodeAsciiShape(b: Bytes)
    requires forall i | 0 <= i < |b| :: b[i] < 128
    ensures |DecodeAscii(b)| == |b|
    ensures forall i | 0 <= i < |b| :: DecodeAscii(b)[i] as int == b[i]
  {
    if b != [] {
      DecodeAsciiShape(b[1..]);
    }
  }

  lemma {:induction false} StripZerosShape(b: Bytes)
    ensures StripZeros(b) <= b
    ensures StripZeros(b) == [] || StripZeros(b)[|StripZeros(b)| - 1] != 0
    ensures forall i | |StripZeros(b)| <= i < |b| :: b[i] == 0
  {
    if b != [] && b[|b| - 1] == 0 {
      StripZerosShape(b[..|b| - 1]);
    }
  }

  /** A text field survives padding and unpadding exactly when it is representable. */
  lemma TextFieldRoundTrip(v: string, size: nat)
    ensures UnpadText(PadText(v, size)) == v <==> Representable(v, size)
  {
    var data, padded := EncodeAscii(v), PadText(v, size);
    var kept := StripZeros(padded);
    EncodeAsciiShape(v);
    StripZerosShape(padded);
    assert forall i | 0 <= i < |kept| :: kept[i] == padded[i];
    assert forall i | 0 <= i < |padded| :: padded[i] < 128;
    DecodeAsciiShape(kept);
    if Representable(v, size) {
      assert forall i | |v| <= i < size :: padded[i] == 0;
      assert v != "" ==> padded[|v| - 1] == v[|v| - 1] as int;
      assert |kept| == |v|;
      assert UnpadText(padded) == v;
    }
  }

  // ----- the image

  function Payload(env: Primitives, spec: ImageSpec): Bytes {
    if spec.payloadData.Some? then spec.payloadData.value else env.generate(spec)
  }

  predicate FieldsInRange(spec: ImageSpec, payload: Bytes) {
    && 0 <= spec.buildNumber < TWO_POW_32
    && 0 <= spec.flashAddress < TWO_POW_32
    && HEADER_SIZE + |payload| < TWO_POW_32
  }

  /** Magic, format version, ECU id, header size: bytes 0 to 11. */
  function Identity(spec: ImageSpec): (r: Bytes)
    ensures |r| == 12
  {
    MAGIC + [FORMAT_VERSION] + [spec.ecuId % 256] + U16(HEADER_SIZE)
  }

  /** The text fields in bytes 12 to 83. */
  function Texts(spec: ImageSpec): (r: Bytes)
    ensures |r| == 72
  {
    PadText(spec.ecuName, 16) + PadText(spec.partNumber, 16)
    + PadText(spec.currentVersion, 16) + PadText(spec.targetVersion, 16) + PadText(spec.buildDate, 8)
  }

  /** Build number, flash address, payload size, image size, CRC: bytes 84 to 103. */
  function Numbers(env: Primitives, spec: ImageSpec, payload: Bytes): (r: Bytes)
    requires FieldsInRange(spec, payload) && env.crc32(payload) < TWO_POW_32
    ensures |r| == 20
  {
    U32(spec.buildNumber) + U32(spec.flashAddress) + U32(|payload|) + U32(HEADER_SIZE + |payload|)
    + U32(env.crc32(payload))
  }

  /** The payload digest, the image format and the reserved bytes. */
  function Trailer(env: Primitives, spec: ImageSpec, payload: Bytes): Bytes {
    env.sha256(payload) + PadText(spec.imageFormat, 8) + Zeros(16)
  }

  function ImageHeader(env: Primitives, spec: ImageSpec, payload: Bytes): Bytes
    requires FieldsInRange(spec, payload) && env.crc32(payload) < TWO_POW_32
  {
    Identity(spec) + Texts(spec) + Numbers(env, spec, payload) + Trailer(env, spec, payload)
  }

  function Build(env: Primitives, spec: ImageSpec): Result<Bytes, ImageError>
    requires env.crc32(Payload(env, spec)) < TWO_POW_32
  {
    var payload := Payload(env, spec);
    if spec.payloadData.Some? && spec.payloadSize != |payload| then Err(PayloadSizeMismatch)
    else if !FieldsInRange(spec, payload) then Err(FieldOutOfRange)
    else Ok(ImageHeader(env, spec, payload) + payload)
  }

  /** The `width` bytes at offset `at`. */
  function Field(image: Bytes, at: nat, width: nat): Bytes
    requires at + width <= |image|
  {
    image[at..at + width]
  }

  function Number(image: Bytes, at: nat, width: nat): nat
    requires at + width <= |image|
  {
    FromBigEndian(Field(image, at, width))
  }

  function Text(image: Bytes, at: nat, width: nat): string
    requires at + width <= |image|
  {
    UnpadText(Field(image, at, width))
  }

  function Parse(env: Primitives, image: Bytes): Result<Metadata, ImageError> {
    if |image| < HEADER_SIZE then Err(TooSmall)
    else if Field(image, 0, 8) != MAGIC then Err(BadMagic)
    else if image[8] != FORMAT_VERSION then Err(BadVersion)
    else if Number(image, 10, 2) != HEADER_SIZE then Err(BadHeaderSize)
    else
      var size := Number(image, 92, 4);
      if |image| < HEADER_SIZE + size then Err(PayloadTruncated)
      else
        var payload := Field(image, HEADER_SIZE, size);
        Ok(Metadata(
             Text(image, 12, 16), image[9], Text(image, 28, 16), Text(image, 44, 16), Text(image, 60, 16),
             Text(image, 76, 8), Number(image, 84, 4), Number(image, 88, 4), size, Number(image, 96, 4),
             env.crc32(payload), env.sha256(payload), Text(image, 136, 8)))
  }

  function ExtractPayload(env: Primitives, image: Bytes): (r: Result<(Metadata, Bytes), ImageError>)
    ensures r.Ok? ==> |r.value.1| == r.value.0.payloadSize
  {
    match Parse(env, image)
    case Err(e) => Err(e)
    case Ok(m) => Ok((m, Field(image, HEADER_SIZE, m.payloadSize)))
  }

  predicate TextRepresentable(spec: ImageSpec) {
    && Representable(spec.ecuName, 16) && Representable(spec.partNumber, 16)
    && Representable(spec.currentVersion, 16) && Representable(spec.targetVersion, 16)
    && Representable(spec.buildDate, 8) && Representable(spec.imageFormat, 8)
  }

  function Described(env: Primitives, spec: ImageSpec, payload: Bytes): Metadata
    requires FieldsInRange(spec, payload)
  {
    Metadata(
      spec.ecuName, spec.ecuId % 256, spec.partNumber, spec.currentVersion, spec.targetVersion, spec.buildDate,
      spec.buildNumber, spec.flashAddress, |payload|, HEADER_SIZE + |payload|,
      env.crc32(payload), env.sha256(payload), spec.imageFormat)
  }

  lemma HeaderLayout(env: Primitives, spec: ImageSpec, payload: Bytes, image: Bytes)
    requires env.Valid() && FieldsInRange(spec, payload)
    requires ImageHeader(env, spec, payload) <= image
    ensures |image| >= HEADER_SIZE
    ensures Field(image, 0, 8) == MAGIC && image[8] == FORMAT_VERSION && image[9] == spec.ecuId % 256
    ensures Field(image, 10, 2) == U16(HEADER_SIZE)
    ensures Field(image, 12, 72) == Texts(spec)
    ensures Field(image, 84, 20) == Numbers(env, spec, payload)
    ensures Field(image, 136, 8) == PadText(spec.imageFormat, 8)
  {
    var h := ImageHeader(env, spec, payload);
    assert Field(h, 0, 12) == Identity(spec);
    assert Field(h, 104, 56) == Trailer(env, spec, payload);
    assert Field(h, 136, 8) == Field(Trailer(env, spec, payload), 32, 8);
  }

  lemma SubField(image: Bytes, at: nat, width: nat, offset: nat, w: nat)
    requires at + width <= |image| && offset + w <= width
    ensures Field(image, at + offset, w) == Field(Field(image, at, width), offset, w)
  {
    var outer := image[at..at + width];
    var whole, inner := image[at + offset..at + offset + w], outer[offset..offset + w];
    assert |whole| == |inner| && forall i | 0 <= i < w :: whole[i] == outer[offset + i] == inner[i];
  }

  lemma TextLayout(spec: ImageSpec, image: Bytes)
    requires |image| >= HEADER_SIZE && Field(image, 12, 72) == Texts(spec)
    ensures Field(image, 12, 16) == PadText(spec.ecuName, 16)
    ensures Field(image, 28, 16) == PadText(spec.partNumber, 16)
    ensures Field(image, 44, 16) == PadText(spec.currentVersion, 16)
    ensures Field(image, 60, 16) == PadText(spec.targetVersion, 16)
    ensures Field(image, 76, 8) == PadText(spec.buildDate, 8)
  {
    var t := Field(image, 12, 72);
    SubField(image, 12, 72, 0, 16);
    assert Field(t, 0, 16) == PadText(spec.ecuName, 16);
    SubField(image, 12, 72, 16, 16);
    assert Field(t, 16, 16) == PadText(spec.partNumber, 16);
    SubField(image, 12, 72, 32, 16);
    assert Field(t, 32, 16) == PadText(spec.currentVersion, 16);
    SubField(image, 12, 72, 48, 16);
    assert Field(t, 48, 16) == PadText(spec.targetVersion, 16);
    SubField(image, 12, 72, 64, 8);
    assert Field(t, 64, 8) == PadText(spec.buildDate, 8);
  }

  lemma NumberLayout(env: Primitives, spec: ImageSpec, payload: Bytes, image: Bytes)
    requires env.Valid() && FieldsInRange(spec, payload)
    requires |image| >= HEADER_SIZE && Field(image, 84, 20) == Numbers(env, spec, payload)
    ensures Number(image, 84, 4) == spec.buildNumber
    ensures Number(image, 88, 4) == spec.flashAddress
    ensures Number(image, 92, 4) == |payload|
    ensures Number(image, 96, 4) == HEADER_SIZE + |payload|
  {
    var t := Field(image, 84, 20);
    SubField(image, 84, 20, 0, 4);
    assert Field(t, 0, 4) == U32(spec.buildNumber);
    SubField(image, 84, 20, 4, 4);
    assert Field(t, 4, 4) == U32(spec.flashAddress);
    SubField(image, 84, 20, 8, 4);
    assert Field(t, 8, 4) == U32(|payload|);
    SubField(image, 84, 20, 12, 4);
    assert Field(t, 12, 4) == U32(HEADER_SIZE + |payload|);
    U32RoundTrip(spec.buildNumber);
    U32RoundTrip(spec.flashAddress);
    U32RoundTrip(|payload|);
    U32RoundTrip(HEADER_SIZE + |payload|);
  }

  /**
   Whatever `build_firmware_image` accepts, extracting from the image, with any bytes after it, gives back
   exactly the payload and the image size, and every header field as it was in the specification exactly
   when each text field is representable in its width.
   */
  lemma ImageRoundTrip(env: Primitives, spec: ImageSpec, tail: Bytes)
    requires env.Valid() && Build(env, spec).Ok?
    ensures var r := ExtractPayload(env, Build(env, spec).value + tail);
      && r.Ok? && r.value.1 == Payload(env, spec)
      && (r.value.0 == Described(env, spec, Payload(env, spec)) <==> TextRepresentable(spec))
      && r.value.0.imageSize == HEADER_SIZE + |Payload(env, spec)|
  {
    var payload := Payload(env, spec);
    var header := ImageHeader(env, spec, payload);
    var image := Build(env, spec).value + tail;
    HeaderLayout(env, spec, payload, image);
    TextLayout(spec, image);
    NumberLayout(env, spec, payload, image);
    assert Field(image, HEADER_SIZE, |payload|) == payload;
    U16RoundTrip(HEADER_SIZE);
    TextFieldRoundTrip(spec.ecuName, 16);
    TextFieldRoundTrip(spec.partNumber, 16);
    TextFieldRoundTrip(spec.currentVersion, 16);
    TextFieldRoundTrip(spec.targetVersion, 16);
    TextFieldRoundTrip(spec.buildDate, 8);
    TextFieldRoundTrip(spec.imageFormat, 8);
  }

  lemma SameFields(a: Bytes, b: Bytes, n: nat)
    requires n <= |a| == |b| && a[..n] == b[..n]
    ensures forall at: nat, width: nat | at + width <= n :: Field(a, at, width) == Field(b, at, width)
    ensures forall i | 0 <= i < n :: a[i] == b[i]
  {
    forall at: nat, width: nat | at + width <= n ensures Field(a, at, width) == Field(b, at, width) {
      assert a[at..at + width] == a[..n][at..at + width];
      assert b[at..at + width] == b[..n][at..at + width];
    }
    forall i | 0 <= i < n ensures a[i] == b[i] {
      assert a[i] == a[..n][i] && b[i] == b[..n][i];
    }
  }

  /**
   The stored CRC and SHA-256 are never checked: two images that differ only there (bytes 100 to 135) and in
   the reserved bytes parse alike, and the reported digests are those of the payload that was found.
   */
  lemma StoredDigestsAreIgnored(env: Primitives, a: Bytes, b: Bytes)
    requires |a| == |b| >= HEADER_SIZE
    requires a[..100] == b[..100] && a[136..144] == b[136..144] && a[HEADER_SIZE..] == b[HEADER_SIZE..]
    ensures ExtractPayload(env, a) == ExtractPayload(env, b)
    ensures var r := ExtractPayload(env, a);
      r.Ok? ==> r.value.0.crc32 == env.crc32(r.value.1) && r.value.0.payloadSha256 == env.sha256(r.value.1)
  {
    SameFields(a, b, 100);
    assert a[8] == b[8] && a[9] == b[9];
    assert Field(a, 136, 8) == Field(b, 136, 8);
    var size := Number(a, 92, 4);
    if |a| >= HEADER_SIZE + size {
      assert Field(a, HEADER_SIZE, size) == a[HEADER_SIZE..][..size];
      assert Field(b, HEADER_SIZE, size) == b[HEADER_SIZE..][..size];
    }
  }

  // ----- what is refused

  /** An image is built exactly if the announced size is right and every number fits its field. */
  lemma BuildSucceedsExactly(env: Primitives, spec: ImageSpec)
    requires env.Valid()
    ensures var payload := Payload(env, spec);
      && (Build(env, spec).Ok? <==>
            && (spec.payloadData.Some? ==> spec.payloadSize == |payload|)
            && 0 <= spec.buildNumber <= 0xFFFF_FFFF && 0 <= spec.flashAddress <= 0xFFFF_FFFF
            && |payload| <= 0xFFFF_FFFF - 160)
      && (Build(env, spec) == Err(PayloadSizeMismatch) <==>
            spec.payloadData.Some? && spec.payloadSize != |spec.payloadData.value|)
  {
  }

  /** An image that was cut short is refused, wherever it was cut. */
  lemma CutImageIsRefused(env: Primitives, spec: ImageSpec, k: nat)
    requires env.Valid() && Build(env, spec).Ok? && k < |Build(env, spec).value|
    ensures Parse(env, Build(env, spec).value[..k]) == Err(if k < HEADER_SIZE then TooSmall else PayloadTruncated)
  {
    var payload, image := Payload(env, spec), Build(env, spec).value;
    HeaderLayout(env, spec, payload, image);
    NumberLayout(env, spec, payload, image);
    if k >= HEADER_SIZE {
      IdentityOfPrefix(image, k);
      U16RoundTrip(HEADER_SIZE);
    }
  }

  lemma IdentityOfPrefix(image: Bytes, k: nat)
    requires HEADER_SIZE <= k <= |image|
    ensures Field(image[..k], 0, 8) == Field(image, 0, 8) && image[..k][8] == image[8]
    ensures Field(image[..k], 10, 2) == Field(image, 10, 2) && Number(image[..k], 92, 4) == Number(image, 92, 4)
  {
    assert Field(image[..k], 92, 4) == Field(image, 92, 4);
  }

  lemma TwoByteNumber(b: Bytes)
    requires |b| == 2
    ensures FromBigEndian(b) == 256 * b[0] as int + b[1] as int
  {
    BigEndianSnoc([], b[0]);
    BigEndianSnoc([b[0]], b[1]);
    assert b == [b[0]] + [b[1]] && [] + [b[0]] == [b[0]];
  }

  /** Any single byte of the magic, the format version or the header size that is altered is noticed as such. */
  lemma AlteredIdentityIsRefused(env: Primitives, spec: ImageSpec, i: nat, b: byte)
    requires env.Valid() && Build(env, spec).Ok? && i < 12 && i != 9 && Build(env, spec).value[i] != b
    ensures Parse(env, Build(env, spec).value[i := b])
         == Err(if i < 8 then BadMagic else if i == 8 then BadVersion else BadHeaderSize)
  {
    var payload, image := Payload(env, spec), Build(env, spec).value;
    HeaderLayout(env, spec, payload, image);
    var altered := image[i := b];
    if i < 8 {
      assert Field(altered, 0, 8)[i] != Field(image, 0, 8)[i];
    } else {
      assert Field(altered, 0, 8) == Field(image, 0, 8);
      TwoByteNumber(Field(altered, 10, 2));
      TwoByteNumber(Field(image, 10, 2));
      U16RoundTrip(HEADER_SIZE);
      assert Field(altered, 10, 2)[0] == altered[10] && Field(altered, 10, 2)[1] == altered[11];
      assert Field(image, 10, 2)[0] == image[10] && Field(image, 10, 2)[1] == image[11];
    }
  }
}
