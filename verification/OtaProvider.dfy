/** Offering an image to a device and naming it so that the device's reads find it
    again (`server/src/matter/ota_provider.rs`). */
module OtaProvider {
  import Decimal
  import Frames
  import opened Ota
  import opened Text
  import Utf8
  import opened Wrappers

  const MAX_U16 := 0xFFFF
  const MAX_U64 := 0xFFFF_FFFF_FFFF_FFFF

  /** The name of the image of a vendor, product and version. */
  function Designator(vid: nat, pid: nat, version: nat): string
  {
    Join([Decimal.ToText(vid), Decimal.ToText(pid), Decimal.ToText(version)], '-') + ".ota"
  }

  function ParseParts(parts: seq<string>): Option<(nat, nat, nat)>
  {
    if |parts| != 3 then None
    else
      var vid :- Decimal.Parse(parts[0], MAX_U16);
      var pid :- Decimal.Parse(parts[1], MAX_U16);
      var version :- Decimal.Parse(parts[2], MAX_U64);
      Some((vid, pid, version))
  }

  function ParseName(text: string): Option<(nat, nat, nat)>
  {
    if EndsWith(text, ".ota") then ParseParts(Split(text[..|text| - 4], '-')) else None
  }

  /** `parse_designator`. */
  function ParseDesignator(name: seq<byte>): Option<(nat, nat, nat)>
  {
    var text :- Utf8.Decode(name);
    ParseName(text)
  }

  lemma NoDash(n: nat)
    ensures '-' !in Decimal.ToText(n)
  {
  }

  /** A name read back is what was named: for every vendor, product and version. */
  lemma DesignatorBack(vid: nat, pid: nat, version: nat)
    requires vid < 0x1_0000 && pid < 0x1_0000 && version < 0x1_0000_0000_0000_0000
    ensures ParseDesignator(Utf8.Encode(Designator(vid, pid, version))) == Some((vid, pid, version))
  {
    Utf8.DecodeOfEncode(Designator(vid, pid, version));
    NameBack(vid, pid, version);
  }

  lemma NameBack(vid: nat, pid: nat, version: nat)
    requires vid <= MAX_U16 && pid <= MAX_U16 && version <= MAX_U64
    ensures ParseName(Designator(vid, pid, version)) == Some((vid, pid, version))
  {
    var parts := [Decimal.ToText(vid), Decimal.ToText(pid), Decimal.ToText(version)];
    NoDash(vid);
    NoDash(pid);
    NoDash(version);
    SplitOfJoin(parts, '-');
    var name := Designator(vid, pid, version);
    assert name[..|name| - 4] == Join(parts, '-');
    Decimal.ParseOfText(vid, MAX_U16);
    Decimal.ParseOfText(pid, MAX_U16);
    Decimal.ParseOfText(version, MAX_U64);
  }

  const UPDATE_TOKEN_LENGTH := 8

  datatype Offer = NotAvailable | Available(version: nat, name: seq<byte>, token: seq<byte>, size: Option<nat>)

  /** `ImageStore::query`: offers the newest applicable image, and writes its name
      and its token into the caller's buffer. */
  method Query(store: ImageStore, vid: nat, pid: nat, current: nat, buf: array<byte>) returns (offer: Offer)
    requires store.Valid() && vid <= MAX_U16 && pid <= MAX_U16
    requires forall i | i in store.images :: i.version.version <= MAX_U64
    modifies buf
    ensures (exists i | i in store.images :: Applies(i.version, vid, pid, current)) || offer == NotAvailable
    ensures offer.Available? ==> IsOffer(store.images, vid, pid, current, offer)
    ensures offer.Available? ==> offer.name + offer.token <= buf[..]
    ensures offer == NotAvailable ==>
      forall i | i in store.images && IsBest(store.images, i, vid, pid, current) ::
        buf.Length < |Utf8.Encode(Designator(vid, pid, i.version.version))| + UPDATE_TOKEN_LENGTH
  {
    var best := store.BestMatch(vid, pid, current);
    if best.None? {
      return NotAvailable;
    }
    var image := FindImage(store.images, vid, pid, best.value.version);
    var size := if image.Some? then Some(|image.value.bytes|) else None;
    var name := Utf8.Encode(Designator(vid, pid, best.value.version));
    if buf.Length < |name| + UPDATE_TOKEN_LENGTH {
      return NotAvailable;
    }
    var token := Frames.BigEndian(best.value.version, UPDATE_TOKEN_LENGTH);
    CopyToFront(name + token, buf);
    OfferLeadsBack(store.images, vid, pid, current, image.value);
    return Available(best.value.version % 0x1_0000_0000, name, token, size);
  }

  lemma OfferLeadsBack(images: seq<StoredImage>, vid: nat, pid: nat, current: nat, image: StoredImage)
    requires vid <= MAX_U16 && pid <= MAX_U16 && image.version.version <= MAX_U64
    requires FindImage(images, vid, pid, image.version.version) == Some(image)
    requires IsBest(images, image, vid, pid, current)
    ensures
      var version := image.version.version;
      IsOffer(images, vid, pid, current, Available(
        version % 0x1_0000_0000, Utf8.Encode(Designator(vid, pid, version)),
        Frames.BigEndian(version, UPDATE_TOKEN_LENGTH), Some(|image.bytes|)))
  {
    DesignatorBack(vid, pid, image.version.version);
  }

  ghost predicate IsBest(images: seq<StoredImage>, image: StoredImage, vid: nat, pid: nat, current: nat)
  {
    && image in images && Applies(image.version, vid, pid, current)
    && forall i | i in images && Applies(i.version, vid, pid, current) :: i.version.version <= image.version.version
  }

  /** The offer's name leads back to the best image and its size. */
  ghost predicate IsOffer(images: seq<StoredImage>, vid: nat, pid: nat, current: nat, offer: Offer)
    requires offer.Available?
  {
    var named := ParseDesignator(offer.name);
    && named.Some? && named.value.0 == vid && named.value.1 == pid
    && var found := FindImage(images, vid, pid, named.value.2);
       && found.Some? && IsBest(images, found.value, vid, pid, current)
       && offer.version == found.value.version.version % 0x1_0000_0000
       && offer.size == Some(|found.value.bytes|)
       && offer.token == Frames.BigEndian(found.value.version.version, UPDATE_TOKEN_LENGTH)
  }

  /** A designated read, as the device's transfer makes it. */
  method Read(store: ImageStore, name: seq<byte>, offset: nat, buf: array<byte>) returns (count: Option<nat>)
    modifies buf
    ensures count.Some? <==>
      var named := ParseDesignator(name);
      named.Some? && FindImage(store.images, named.value.0, named.value.1, named.value.2).Some?
    ensures count.Some? ==>
      var (vid, pid, version) := ParseDesignator(name).value;
      var chunk := Chunk(FindImage(store.images, vid, pid, version).value.bytes, offset, buf.Length);
      count.value == |chunk| && |chunk| <= buf.Length && buf[..] == chunk + old(buf[..])[|chunk|..]
    ensures count.None? ==> buf[..] == old(buf[..])
  {
    var named := ParseDesignator(name);
    if named.None? {
      return None;
    }
    count := store.ReadImage(named.value.0, named.value.1, named.value.2, offset, buf);
  }

  /** A designator spells vendor, product and version. */
  lemma DesignatorInLetters(vid: nat, pid: nat, version: nat)
    ensures Designator(vid, pid, version)
      == Decimal.ToText(vid) + "-" + Decimal.ToText(pid) + "-" + Decimal.ToText(version) + ".ota"
  {
    var parts := [Decimal.ToText(vid), Decimal.ToText(pid), Decimal.ToText(version)];
    assert parts[1..] == [parts[1], parts[2]] && parts[1..][1..] == [parts[2]];
    assert Join([parts[2]], '-') == parts[2];
    assert Join(parts[1..], '-') == parts[1] + ['-'] + parts[2];
    assert Join(parts, '-') == parts[0] + ['-'] + (parts[1] + ['-'] + parts[2]);
  }
}
