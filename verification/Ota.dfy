/** Firmware uploads and the image store (`server/src/api/ota.rs`). */
module Ota {
  import Utf8
  import opened Wrappers

  type byte = Utf8.byte

  const UPLOAD_TTL := 60
  const MAX_IN_FLIGHT_UPLOADS := 4

  // ----- who reserved what -----

  /** The index of the last colon, or of the text's end when it has none. */
  function LastColon(peer: string): (i: nat)
    ensures i <= |peer| && (i < |peer| ==> peer[i] == ':')
    ensures forall j | i < j < |peer| :: peer[j] != ':'
    ensures i == |peer| ==> ':' !in peer
  {
    if peer == "" then 0
    else
      var last := |peer| - 1;
      if peer[last] == ':' then last
      else
        var i := LastColon(peer[..last]);
        assert peer == peer[..last] + [peer[last]];
        if i == last then |peer| else i
  }

  /** The address of a peer without its port: a colon inside brackets is part of
      an address. */
  function HostOf(peer: string): string
  {
    var i := LastColon(peer);
    if i < |peer| && ']' !in peer[i + 1..] then peer[..i] else peer
  }

  /** Two connections of one client count as one, whatever their ports. */
  lemma HostIgnoresPort(host: string, port: string)
    requires ':' !in port && ']' !in port
    ensures HostOf(host + ":" + port) == host
  {
    var peer := host + ":" + port;
    var i := LastColon(peer);
    assert peer[|host|] == ':';
    assert forall j | |host| < j < |peer| :: peer[j] == port[j - |host| - 1];
    assert i == |host| && peer[i + 1..] == port;
  }

  datatype Reservation = Reservation(peer: string, expiresAt: nat)

  datatype Redemption = Redemption(id: string, peer: string, at: nat)

  function Live(reservations: map<string, Reservation>, now: nat): map<string, Reservation>
  {
    map id | id in reservations && reservations[id].expiresAt > now :: reservations[id]
  }

  datatype UploadError = TooManyUploads | UnknownId | Expired | AnotherClient

  /** What was redeemed was redeemed once, in time, and by the client it was
      reserved for. */
  ghost predicate Rightful(
    reservations: map<string, Reservation>, granted: map<string, Reservation>, redeemed: seq<Redemption>)
  {
    && (forall id | id in reservations :: id in granted && granted[id] == reservations[id])
    && (forall r | r in redeemed :: r.id !in reservations && InOrder(granted, r))
    && forall i, j | 0 <= i < j < |redeemed| :: redeemed[i].id != redeemed[j].id
  }

  predicate InOrder(granted: map<string, Reservation>, r: Redemption)
  {
    r.id in granted && r.at < granted[r.id].expiresAt && HostOf(r.peer) == HostOf(granted[r.id].peer)
  }

  lemma ReservingKeepsRightful(
    reservations: map<string, Reservation>, granted: map<string, Reservation>, redeemed: seq<Redemption>, id: string,
    reservation: Reservation)
    requires Rightful(reservations, granted, redeemed) && id !in granted
    ensures Rightful(reservations[id := reservation], granted[id := reservation], redeemed)
  {
    forall r | r in redeemed ensures r.id != id && InOrder(granted[id := reservation], r) {
      assert InOrder(granted, r);
    }
  }

  lemma DroppingKeepsRightful(
    reservations: map<string, Reservation>, granted: map<string, Reservation>, redeemed: seq<Redemption>,
    fewer: map<string, Reservation>)
    requires Rightful(reservations, granted, redeemed)
    requires forall id | id in fewer :: id in reservations && fewer[id] == reservations[id]
    ensures Rightful(fewer, granted, redeemed)
  {
  }

  lemma RedeemingKeepsRightful(
    reservations: map<string, Reservation>, granted: map<string, Reservation>, redeemed: seq<Redemption>, r: Redemption)
    requires Rightful(reservations, granted, redeemed) && r.id in reservations && InOrder(granted, r)
    ensures Rightful(reservations - {r.id}, granted, redeemed + [r])
  {
    forall q | q in redeemed ensures q.id != r.id {
    }
  }

  class Reservations {
    var reservations: map<string, Reservation>
    /** Every reservation ever made, and every one that was redeemed. */
    ghost var granted: map<string, Reservation>
    ghost var redeemed: seq<Redemption>

    ghost predicate Valid()
      reads this
    {
      |reservations| <= MAX_IN_FLIGHT_UPLOADS && Rightful(reservations, granted, redeemed)
    }

    constructor ()
      ensures Valid() && reservations == map[] && granted == map[] && redeemed == []
    {
      reservations, granted, redeemed := map[], map[], [];
    }

    /** `reserve`; the id is one nobody has had before. */
    method Reserve(peer: string, now: nat, id: string) returns (ticket: Result<string, UploadError>)
      requires Valid() && id !in granted
      modifies this
      ensures Valid() && redeemed == old(redeemed)
      ensures |Live(old(reservations), now)| < MAX_IN_FLIGHT_UPLOADS ==>
        && ticket == Ok(id)
        && reservations == Live(old(reservations), now)[id := Reservation(peer, now + UPLOAD_TTL)]
      ensures |Live(old(reservations), now)| >= MAX_IN_FLIGHT_UPLOADS ==>
        ticket == Err(TooManyUploads) && reservations == Live(old(reservations), now)
      ensures forall earlier | earlier in old(reservations) && earlier != id ::
        earlier in reservations <==> now < old(reservations)[earlier].expiresAt
      ensures |reservations| <= 4 && (ticket.Ok? ==> reservations[id].expiresAt == now + 60)
      ensures granted == if ticket.Ok? then old(granted)[id := Reservation(peer, now + UPLOAD_TTL)] else old(granted)
    {
      LiveIsNoMore(reservations, now);
      DroppingKeepsRightful(reservations, granted, redeemed, Live(reservations, now));
      reservations := Live(reservations, now);
      if |reservations| >= MAX_IN_FLIGHT_UPLOADS {
        return Err(TooManyUploads);
      }
      ReservingKeepsRightful(reservations, granted, redeemed, id, Reservation(peer, now + UPLOAD_TTL));
      OneMore(reservations, id, Reservation(peer, now + UPLOAD_TTL));
      granted := granted[id := Reservation(peer, now + UPLOAD_TTL)];
      reservations := reservations[id := Reservation(peer, now + UPLOAD_TTL)];
      return Ok(id);
    }

    /** `redeem`: the wrong client does not use an id up, the right one does. */
    method Redeem(id: string, peer: string, now: nat) returns (error: Option<UploadError>)
      requires Valid()
      modifies this
      ensures Valid() && granted == old(granted)
      ensures error ==
        if id !in old(reservations) then Some(UnknownId)
        else if old(reservations)[id].expiresAt <= now then Some(Expired)
        else if HostOf(old(reservations)[id].peer) != HostOf(peer) then Some(AnotherClient)
        else None
      ensures reservations ==
        if error in {Some(UnknownId), Some(AnotherClient)} then old(reservations) else old(reservations) - {id}
      ensures redeemed == old(redeemed) + if error == None then [Redemption(id, peer, now)] else []
    {
      if id !in reservations {
        return Some(UnknownId);
      }
      var reservation := reservations[id];
      if reservation.expiresAt <= now {
        LessIsNoMore(reservations, id);
        DroppingKeepsRightful(reservations, granted, redeemed, reservations - {id});
        reservations := reservations - {id};
        return Some(Expired);
      }
      if HostOf(reservation.peer) != HostOf(peer) {
        return Some(AnotherClient);
      }
      LessIsNoMore(reservations, id);
      RedeemingKeepsRightful(reservations, granted, redeemed, Redemption(id, peer, now));
      redeemed := redeemed + [Redemption(id, peer, now)];
      reservations := reservations - {id};
      return None;
    }
  }

  lemma SubsetIsNoLarger<T>(a: set<T>, b: set<T>)
    requires a <= b
    ensures |a| <= |b|
  {
    assert b == a + (b - a);
  }

  lemma LiveIsNoMore(reservations: map<string, Reservation>, now: nat)
    ensures |Live(reservations, now)| <= |reservations|
  {
    assert Live(reservations, now).Keys <= reservations.Keys;
    SubsetIsNoLarger(Live(reservations, now).Keys, reservations.Keys);
    assert |Live(reservations, now).Keys| == |Live(reservations, now)| && |reservations.Keys| == |reservations|;
  }

  lemma OneMore(reservations: map<string, Reservation>, id: string, reservation: Reservation)
    ensures |reservations[id := reservation]| <= |reservations| + 1
  {
    var more := reservations[id := reservation];
    SubsetIsNoLarger(more.Keys, reservations.Keys + {id});
    assert |more.Keys| == |more| && |reservations.Keys| == |reservations|;
  }

  lemma LessIsNoMore(reservations: map<string, Reservation>, id: string)
    ensures |reservations - {id}| <= |reservations|
  {
    SubsetIsNoLarger((reservations - {id}).Keys, reservations.Keys);
    assert |(reservations - {id}).Keys| == |reservations - {id}| && |reservations.Keys| == |reservations|;
  }

  // ----- the image store -----

  datatype Version = Version(vid: nat, pid: nat, version: nat, minApplicable: nat, maxApplicable: nat)

  datatype StoredImage = StoredImage(version: Version, bytes: seq<byte>)

  predicate Matches(image: StoredImage, vid: nat, pid: nat, version: nat)
  {
    image.version.vid == vid && image.version.pid == pid && image.version.version == version
  }

  predicate SameName(a: StoredImage, b: StoredImage)
  {
    Matches(a, b.version.vid, b.version.pid, b.version.version)
  }

  predicate Applies(version: Version, vid: nat, pid: nat, current: nat)
  {
    && version.vid == vid && version.pid == pid
    && version.version > current && version.minApplicable <= current && version.maxApplicable >= current
  }

  function FindImage(images: seq<StoredImage>, vid: nat, pid: nat, version: nat): (found: Option<StoredImage>)
    ensures found.Some? ==> found.value in images && Matches(found.value, vid, pid, version)
    ensures found.None? ==> forall i | i in images :: !Matches(i, vid, pid, version)
  {
    if images == [] then None
    else if Matches(images[0], vid, pid, version) then Some(images[0])
    else FindImage(images[1..], vid, pid, version)
  }

  function Without(images: seq<StoredImage>, image: StoredImage): (kept: seq<StoredImage>)
    ensures forall i :: i in kept <==> i in images && !SameName(i, image)
  {
    if images == [] then []
    else
      var init, last := images[..|images| - 1], images[|images| - 1];
      assert images == init + [last];
      Without(init, image) + if SameName(last, image) then [] else [last]
  }

  predicate NamesDiffer(images: seq<StoredImage>)
  {
    forall i, j | 0 <= i < j < |images| :: !SameName(images[i], images[j])
  }

  lemma {:induction false} OthersStayDistinct(images: seq<StoredImage>, image: StoredImage)
    requires NamesDiffer(images)
    ensures NamesDiffer(Without(images, image))
  {
    if images != [] {
      var init, last := images[..|images| - 1], images[|images| - 1];
      OthersStayDistinct(init, image);
      forall i | i in Without(init, image) ensures !SameName(i, last) {
        var n :| 0 <= n < |init| && init[n] == i;
        assert images[n] == i;
      }
    }
  }

  lemma NamesStayDistinct(images: seq<StoredImage>, image: StoredImage)
    requires NamesDiffer(images)
    ensures NamesDiffer(WithImage(images, image))
  {
    OthersStayDistinct(images, image);
    assert forall i | i in Without(images, image) :: !SameName(i, image);
  }

  /** A stored image takes the place of the one of its name. */
  function WithImage(images: seq<StoredImage>, image: StoredImage): seq<StoredImage>
  {
    Without(images, image) + [image]
  }

  /** What one read hands over: nothing at or past the end. */
  function Chunk(bytes: seq<byte>, offset: nat, size: nat): seq<byte>
  {
    if offset >= |bytes| then []
    else if |bytes| - offset <= size then bytes[offset..]
    else bytes[offset..offset + size]
  }

  class ImageStore {
    var images: seq<StoredImage>

    /** At most one image of each vendor, product and version. */
    predicate Valid()
      reads this
    {
      NamesDiffer(images)
    }

    constructor ()
      ensures Valid() && images == []
    {
      images := [];
    }

    /** `store`: a newer upload replaces the image of the same name. */
    method Store(image: StoredImage)
      requires Valid()
      modifies this
      ensures Valid() && images == WithImage(old(images), image)
      ensures forall i :: i in images <==> i == image || (i in old(images) && !SameName(i, image))
      ensures FindImage(images, image.version.vid, image.version.pid, image.version.version) == Some(image)
    {
      var kept: seq<StoredImage> := [];
      for n := 0 to |images|
        invariant kept == Without(images[..n], image)
      {
        assert images[..n + 1][..n] == images[..n];
        if !SameName(images[n], image) {
          kept := kept + [images[n]];
        }
      }
      assert images[..|images|] == images;
      NamesStayDistinct(images, image);
      images := kept + [image];
      assert image in images;
    }

    /** `best_match`: the newest image that applies. */
    method BestMatch(vid: nat, pid: nat, current: nat) returns (best: Option<Version>)
      ensures best.Some? ==>
        && Applies(best.value, vid, pid, current)
        && best.value.vid == vid && best.value.pid == pid && current < best.value.version
        && best.value.minApplicable <= current <= best.value.maxApplicable
        && (exists i | i in images :: i.version == best.value)
        && forall i | i in images && Applies(i.version, vid, pid, current) :: i.version.version <= best.value.version
      ensures best.None? ==> forall i | i in images :: !Applies(i.version, vid, pid, current)
      ensures best.None? ==>
        forall i | i in images && i.version.vid == vid && i.version.pid == pid && current < i.version.version ::
          current < i.version.minApplicable || i.version.maxApplicable < current
    {
      best := None;
      for n := 0 to |images|
        invariant best.Some? ==>
          && Applies(best.value, vid, pid, current)
          && (exists i | i in images[..n] :: i.version == best.value)
          && forall i | i in images[..n] && Applies(i.version, vid, pid, current) ::
               i.version.version <= best.value.version
        invariant best.None? ==> forall i | i in images[..n] :: !Applies(i.version, vid, pid, current)
      {
        assert images[..n + 1] == images[..n] + [images[n]];
        var version := images[n].version;
        if Applies(version, vid, pid, current) && (best.None? || best.value.version <= version.version) {
          best := Some(version);
        }
      }
      assert images[..|images|] == images;
    }

    /** `read_image`, into the caller's buffer. */
    method ReadImage(vid: nat, pid: nat, version: nat, offset: nat, buf: array<byte>) returns (count: Option<nat>)
      modifies buf
      ensures count.None? <==> FindImage(images, vid, pid, version).None?
      ensures count.Some? ==>
        var chunk := Chunk(FindImage(images, vid, pid, version).value.bytes, offset, buf.Length);
        count.value == |chunk| && |chunk| <= buf.Length && buf[..] == chunk + old(buf[..])[|chunk|..]
      ensures count.None? ==> buf[..] == old(buf[..])
    {
      var found := FindImage(images, vid, pid, version);
      if found.None? {
        return None;
      }
      var bytes := found.value.bytes;
      if offset >= |bytes| {
        return Some(0);
      }
      var remaining := bytes[offset..];
      var length := if |remaining| <= buf.Length then |remaining| else buf.Length;
      assert remaining[..length] == Chunk(bytes, offset, buf.Length);
      CopyToFront(remaining[..length], buf);
      return Some(length);
    }
  }

  /** `copy_from_slice` on the front of a buffer. */
  method CopyToFront(data: seq<byte>, buf: array<byte>)
    requires |data| <= buf.Length
    modifies buf
    ensures buf[..] == data + old(buf[..])[|data|..]
  {
    for i := 0 to |data|
      invariant forall j | 0 <= j < i :: buf[j] == data[j]
      invariant forall j | i <= j < buf.Length :: buf[j] == old(buf[j])
    {
      buf[i] := data[i];
    }
  }

  // ----- a whole transfer -----

  datatype Name = Name(vid: nat, pid: nat, version: nat)

  predicate IsNamed(image: StoredImage, name: Name)
  {
    Matches(image, name.vid, name.pid, name.version)
  }

  /** The bytes that stand under a name. */
  function BytesOf(images: seq<StoredImage>, name: Name): Option<seq<byte>>
  {
    var found := FindImage(images, name.vid, name.pid, name.version);
    if found.Some? then Some(found.value.bytes) else None
  }

  lemma {:induction false} FoundBehind(images: seq<StoredImage>, image: StoredImage, name: Name)
    ensures BytesOf(images + [image], name)
      == if BytesOf(images, name).Some? then BytesOf(images, name)
         else if IsNamed(image, name) then Some(image.bytes) else None
  {
    if images == [] {
      assert [image][1..] == [];
    } else {
      assert (images + [image])[1..] == images[1..] + [image];
      FoundBehind(images[1..], image, name);
    }
  }

  lemma {:induction false} OthersAreKept(images: seq<StoredImage>, image: StoredImage, name: Name)
    requires !IsNamed(image, name)
    ensures BytesOf(Without(images, image), name) == BytesOf(images, name)
  {
    if images != [] {
      var init, last := images[..|images| - 1], images[|images| - 1];
      assert images == init + [last];
      OthersAreKept(init, image, name);
      FoundBehind(init, last, name);
      FoundBehind(Without(init, image), last, name);
      assert Without(init, image) + [] == Without(init, image);
    }
  }

  /** A stored image is what stands under its name, and under no other. */
  lemma BytesAfterStore(images: seq<StoredImage>, image: StoredImage, name: Name)
    ensures BytesOf(WithImage(images, image), name)
      == if IsNamed(image, name) then Some(image.bytes) else BytesOf(images, name)
  {
    FoundBehind(Without(images, image), image, name);
    if !IsNamed(image, name) {
      OthersAreKept(images, image, name);
    }
  }

  /** The store, and what a device has received of the image it asks for by name. */
  datatype Transfer = Transfer(images: seq<StoredImage>, received: seq<byte>)

  datatype Step = Upload(image: StoredImage) | Read(size: nat)

  function Next(t: Transfer, name: Name, step: Step): Transfer
  {
    match step
    case Upload(image) => t.(images := WithImage(t.images, image))
    case Read(size) =>
      var bytes := BytesOf(t.images, name);
      if bytes.None? then t else t.(received := t.received + Chunk(bytes.value, |t.received|, size))
  }

  /** After reads that each start where the one before ended, and uploads of any
      images in between. */
  function After(start: Transfer, name: Name, steps: seq<Step>): Transfer
  {
    if steps == [] then start else Next(After(start, name, steps[..|steps| - 1]), name, steps[|steps| - 1])
  }

  lemma {:induction false} AfterBoth(start: Transfer, name: Name, a: seq<Step>, b: seq<Step>)
    ensures After(start, name, a + b) == After(After(start, name, a), name, b)
    decreases |b|
  {
    if b == [] {
      assert a + b == a;
    } else {
      assert (a + b)[..|a + b| - 1] == a + b[..|b| - 1];
      AfterBoth(start, name, a, b[..|b| - 1]);
    }
  }

  function Total(steps: seq<Step>): nat
  {
    if steps == [] then 0
    else Total(steps[..|steps| - 1]) + if steps[|steps| - 1].Read? then steps[|steps| - 1].size else 0
  }

  /** The image is not uploaded again on the way. */
  predicate Unreplaced(steps: seq<Step>, name: Name)
  {
    forall s | s in steps && s.Upload? :: !IsNamed(s.image, name)
  }

  /** What a device has got, followed by the image from there on, up to a number of
      bytes. */
  function Continued(bytes: seq<byte>, received: seq<byte>, count: nat): seq<byte>
  {
    received + Chunk(bytes, |received|, count)
  }

  lemma ContinuedTwice(bytes: seq<byte>, received: seq<byte>, a: nat, b: nat)
    ensures Continued(bytes, Continued(bytes, received, a), b) == Continued(bytes, received, a + b)
  {
    var from := |received|;
    if from < |bytes| && from + a < |bytes| {
      var to := if from + a + b < |bytes| then from + a + b else |bytes|;
      Joined(bytes, from, from + a, to);
      assert Chunk(bytes, from, a) == bytes[from..from + a] && Chunk(bytes, from, a + b) == bytes[from..to];
      assert Chunk(bytes, from + a, b) == bytes[from + a..to];
      Regrouped(received, bytes[from..from + a], bytes[from + a..to]);
    }
  }

  lemma Joined<T>(s: seq<T>, from: nat, middle: nat, to: nat)
    requires from <= middle <= to <= |s|
    ensures s[from..middle] + s[middle..to] == s[from..to]
  {
  }

  lemma Regrouped<T>(a: seq<T>, b: seq<T>, c: seq<T>)
    ensures a + b + c == a + (b + c)
  {
  }

  lemma ContinuedPrefix(bytes: seq<byte>, received: seq<byte>, count: nat)
    ensures Continued(bytes, received, count) <= bytes <==> received <= bytes
    ensures received <= bytes ==>
      Continued(bytes, received, count)
      == if |received| + count <= |bytes| then bytes[..|received| + count] else bytes
  {
    var more := Continued(bytes, received, count);
    if more <= bytes {
      assert received == more[..|received|] == bytes[..|received|];
    }
    if received <= bytes {
      assert received == bytes[..|received|];
    }
  }

  /** While the image is not replaced, a device with any bytes goes on with exactly
      the image's next ones, whatever the buffers; so what it has is the beginning
      of the image exactly if it was when it went on. */
  lemma {:induction false} DownloadedIsAPrefix(start: Transfer, name: Name, bytes: seq<byte>, steps: seq<Step>)
    requires BytesOf(start.images, name) == Some(bytes) && Unreplaced(steps, name)
    ensures
      var t := After(start, name, steps);
      && BytesOf(t.images, name) == Some(bytes)
      && t.received == Continued(bytes, start.received, Total(steps))
      && (t.received <= bytes <==> start.received <= bytes)
    decreases |steps|
  {
    if steps != [] {
      var init, last := steps[..|steps| - 1], steps[|steps| - 1];
      assert last in steps && Unreplaced(init, name);
      DownloadedIsAPrefix(start, name, bytes, init);
      match last
      case Upload(image) => BytesAfterStore(After(start, name, init).images, image, name);
      case Read(size) => ContinuedTwice(bytes, start.received, Total(init), size);
    }
    ContinuedPrefix(bytes, start.received, Total(steps));
  }

  function Reads(steps: seq<Step>): nat
  {
    if steps == [] then 0 else Reads(steps[..|steps| - 1]) + if steps[|steps| - 1].Read? then 1 else 0
  }

  lemma {:induction false} TotalAtLeastCount(steps: seq<Step>)
    requires forall s | s in steps && s.Read? :: s.size > 0
    ensures Total(steps) >= Reads(steps)
  {
    if steps != [] {
      var init, last := steps[..|steps| - 1], steps[|steps| - 1];
      assert forall s | s in init :: s in steps;
      assert last in steps;
      TotalAtLeastCount(init);
    }
  }

  /** With buffers that hold something the transfer ends, and when a read gives
      nothing the device has the image exactly if it began with some of it. */
  lemma TransferIsWhole(start: Transfer, name: Name, bytes: seq<byte>, steps: seq<Step>, size: nat)
    requires BytesOf(start.images, name) == Some(bytes) && Unreplaced(steps, name)
    requires (forall s | s in steps && s.Read? :: s.size > 0) && size > 0
    ensures
      var received := After(start, name, steps).received;
      && (Reads(steps) >= |bytes| ==> Chunk(bytes, |received|, size) == [])
      && (received == bytes <==> Chunk(bytes, |received|, size) == [] && start.received <= bytes)
  {
    DownloadedIsAPrefix(start, name, bytes, steps);
    ContinuedPrefix(bytes, start.received, Total(steps));
    TotalAtLeastCount(steps);
    var received := After(start, name, steps).received;
    if received <= bytes && |received| == |bytes| {
      assert received == bytes;
    }
  }

  /** An upload of the image between two reads leaves the device with the new image
      exactly if what it had by then is the beginning of that one, too. */
  lemma ReplacedOnTheWay(
    start: Transfer, name: Name, before: seq<Step>, image: StoredImage, after: seq<Step>, size: nat)
    requires IsNamed(image, name) && Unreplaced(after, name)
    requires (forall s | s in after && s.Read? :: s.size > 0) && size > 0
    ensures
      var received := After(start, name, before + [Upload(image)] + after).received;
      && (Reads(after) >= |image.bytes| ==> Chunk(image.bytes, |received|, size) == [])
      && (received == image.bytes
          <==> Chunk(image.bytes, |received|, size) == [] && After(start, name, before).received <= image.bytes)
  {
    var replaced := before + [Upload(image)];
    AfterBoth(start, name, replaced, after);
    assert replaced[..|replaced| - 1] == before;
    var t := After(start, name, replaced);
    BytesAfterStore(After(start, name, before).images, image, name);
    TransferIsWhole(t, name, image.bytes, after, size);
  }

  /** A device that had begun with another image can end up with a mix of both. */
  lemma MixIsPossible(name: Name, first: StoredImage, second: StoredImage)
    requires IsNamed(first, name) && IsNamed(second, name) && first.bytes == [1, 2] && second.bytes == [3, 4]
    ensures After(Transfer([first], []), name, [Read(1), Upload(second), Read(1)]).received == [1, 4]
  {
    var start := Transfer([first], []);
    var steps := [Read(1), Upload(second), Read(1)];
    assert steps[..2][..1] == [Read(1)] && steps[..2][1] == Upload(second);
    assert After(start, name, [Read(1)]) == Transfer([first], [1]);
    BytesAfterStore([first], second, name);
    assert BytesOf(After(start, name, steps[..2]).images, name) == Some([3, 4]);
  }

  /** An address in brackets is not cut, with or without a port. */
  lemma BracketsAreKept(address: string, port: string)
    requires ':' !in port && ']' !in port
    ensures HostOf("[" + address + "]") == "[" + address + "]"
    ensures HostOf("[" + address + "]" + ":" + port) == "[" + address + "]"
  {
    var host := "[" + address + "]";
    HostIgnoresPort(host, port);
    var i := LastColon(host);
    if i < |host| {
      assert host[|host| - 1] == ']' && host[i + 1..][|host| - 2 - i] == ']';
    }
  }
}
