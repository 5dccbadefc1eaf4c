/**
  * IPv6FindUpperProtocol of iputil/packet.go: the walk along the extension headers of an IPv6 packet.
  *
  * The reference is section 4 of RFC 8200: every extension header names the one after it, and its
  * length field says where that one begins. A chain of places is written down as such, and the loop is
  * shown to find its end exactly when there is a chain of no more than seven headers before it.
  */
module UpperProtocol {
  import opened Checksum

  const IPV6_HEADER := 40
  /** maxIPv6ExtHeaders, the turns of the loop */
  const MAX_TURNS := 8

  /** The number of a header and the index it begins at. */
  datatype Place = Place(next: Byte, offset: nat)

  datatype Found =
    | NotFound
    | Found(next: Byte, offset: nat, isFragment: bool, anyFragment: bool)

  predicate IsOptions(next: Byte) {
    next == 0 || next == 43 || next == 60
  }

  predicate IsExtension(next: Byte) {
    IsOptions(next) || next == 44 || next == 51
  }

  /** The bytes of a header that the walk reads are there. */
  predicate HasRoom(packet: seq<Byte>, p: Place) {
    p.offset + (if p.next == 44 then 8 else 2) <= |packet|
  }

  /** A fragment header whose thirteen binary digits of offset are not zero. */
  predicate IsLaterFragment(packet: seq<Byte>, p: Place) {
    p.next == 44 && HasRoom(packet, p) && (packet[p.offset + 2] != 0 || packet[p.offset + 3] / 8 != 0)
  }

  predicate Passes(packet: seq<Byte>, p: Place) {
    IsExtension(p.next) && HasRoom(packet, p) && !IsLaterFragment(packet, p)
  }

  /** The length of a header: section 4 of RFC 8200, and section 2.2 of RFC 4302 for number 51. */
  function HeaderLength(next: Byte, length: Byte): (r: nat)
    ensures r >= 8
  {
    if next == 44 then 8
    else if next == 51 then ((length as int) + 2) * 4
    else ((length as int) + 1) * 8
  }

  function After(packet: seq<Byte>, p: Place): Place
    requires HasRoom(packet, p)
  {
    Place(packet[p.offset], p.offset + HeaderLength(p.next, packet[p.offset + 1]))
  }

  // ---- The reference: chains ----

  ghost predicate Link(packet: seq<Byte>, p: Place, q: Place) {
    Passes(packet, p) && q == After(packet, p)
  }

  ghost predicate Chain(packet: seq<Byte>, places: seq<Place>) {
    && |packet| >= IPV6_HEADER && |places| > 0
    && places[0] == Place(packet[6], IPV6_HEADER)
    && forall k :: 0 < k < |places| ==> Link(packet, places[k - 1], places[k])
  }

  /** A chain ends at an upper layer within the packet, or at a fragment that is not the first. */
  ghost predicate EndsIn(packet: seq<Byte>, last: Place, any: bool, r: Found) {
    if IsLaterFragment(packet, last) then r == Found(packet[last.offset], last.offset, true, true)
    else !IsExtension(last.next) && last.offset <= |packet| && r == Found(last.next, last.offset, false, any)
  }

  ghost predicate Leads(packet: seq<Byte>, places: seq<Place>, r: Found) {
    Chain(packet, places) && EndsIn(packet, places[|places| - 1], HasFragment(places), r)
  }

  /** A fragment header is among the places. */
  predicate HasFragment(places: seq<Place>) {
    places != [] && (places[|places| - 1].next == 44 || HasFragment(places[..|places| - 1]))
  }

  // ---- The walk ----

  /** What the loop comes to from place p with the given turns left. */
  function Walk(packet: seq<Byte>, p: Place, turns: nat, any: bool): Found
    decreases |packet| - p.offset
  {
    if turns == 0 then NotFound
    else if Passes(packet, p) then Walk(packet, After(packet, p), turns - 1, any || p.next == 44)
    else if IsLaterFragment(packet, p) then Found(packet[p.offset], p.offset, true, true)
    else if IsExtension(p.next) || p.offset > |packet| then NotFound
    else Found(p.next, p.offset, false, any)
  }

  function Upper(packet: seq<Byte>): Found {
    if |packet| < IPV6_HEADER then NotFound else Walk(packet, Place(packet[6], IPV6_HEADER), MAX_TURNS, false)
  }

  /** IPv6FindUpperProtocol */
  method IPv6FindUpperProtocol(packet: seq<Byte>) returns (r: Found)
    ensures r == Upper(packet)
  {
    if |packet| < IPV6_HEADER {
      return NotFound;
    }
    var next, offset, any := packet[6], IPV6_HEADER, false;
    for turn := 0 to MAX_TURNS
      invariant offset >= IPV6_HEADER
      invariant Upper(packet) == Walk(packet, Place(next, offset), MAX_TURNS - turn, any)
    {
      if IsOptions(next) {
        if |packet| < offset + 2 {
          return NotFound;
        }
        next, offset := packet[offset], offset + ((packet[offset + 1] as int) + 1) * 8;
      } else if next == 44 {
        if |packet| < offset + 8 {
          return NotFound;
        }
        any := true;
        if packet[offset + 2] != 0 || packet[offset + 3] / 8 != 0 {
          return Found(packet[offset], offset, true, any);
        }
        next, offset := packet[offset], offset + 8;
      } else if next == 51 {
        if |packet| < offset + 2 {
          return NotFound;
        }
        next, offset := packet[offset], offset + ((packet[offset + 1] as int) + 2) * 4;
      } else {
        if offset > |packet| {
          return NotFound;
        }
        return Found(next, offset, false, any);
      }
    }
    return NotFound;
  }

  // ---- The walk finds the end of the chain ----

  /** Every chain that leads somewhere within the turns is followed to its end. */
  lemma {:induction false} WalkFollows(packet: seq<Byte>, places: seq<Place>, k: nat, r: Found)
    requires Leads(packet, places, r) && k < |places| <= MAX_TURNS
    ensures Walk(packet, places[k], MAX_TURNS - k, HasFragment(places[..k])) == r
    decreases |places| - k
  {
    if k + 1 < |places| {
      assert Link(packet, places[k], places[k + 1]);
      assert places[..k + 1][..k] == places[..k];
      WalkFollows(packet, places, k + 1, r);
    } else {
      assert places[..k] == places[..|places| - 1];
    }
  }

  /** What the walk finds from the end of a chain on, some longer chain leads to. */
  lemma {:induction false} WalkIsChain(packet: seq<Byte>, places: seq<Place>) returns (longer: seq<Place>)
    requires Chain(packet, places) && |places| <= MAX_TURNS
    requires Walk(packet, places[|places| - 1], MAX_TURNS + 1 - |places|, HasFragment(places[..|places| - 1])) != NotFound
    ensures |longer| <= MAX_TURNS
    ensures Leads(packet, longer, Walk(packet, places[|places| - 1], MAX_TURNS + 1 - |places|, HasFragment(places[..|places| - 1])))
    decreases MAX_TURNS - |places|
  {
    var last := places[|places| - 1];
    if Passes(packet, last) {
      var next := places + [After(packet, last)];
      assert next[..|next| - 1] == places;
      if |places| == MAX_TURNS {
        assert false;
      } else {
        longer := WalkIsChain(packet, next);
      }
    } else {
      longer := places;
    }
  }

  /** The walk finds r exactly when a chain with no more than seven headers before its end leads to r. */
  lemma FoundIffChain(packet: seq<Byte>, r: Found)
    requires r != NotFound
    ensures Upper(packet) == r <==> exists places :: |places| <= MAX_TURNS && Leads(packet, places, r)
  {
    if Upper(packet) == r {
      var start := [Place(packet[6], IPV6_HEADER)];
      assert start[..0] == [];
      var longer := WalkIsChain(packet, start);
      assert Leads(packet, longer, r);
    }
    forall places | |places| <= MAX_TURNS && Leads(packet, places, r)
      ensures Upper(packet) == r
    {
      assert places[..0] == [];
      WalkFollows(packet, places, 0, r);
    }
  }

  /** The index found is one of the packet, and the header of a later fragment is there in full. */
  lemma FoundInside(packet: seq<Byte>)
    requires Upper(packet) != NotFound
    ensures IPV6_HEADER <= Upper(packet).offset <= |packet|
    ensures Upper(packet).isFragment ==> Upper(packet).offset + 8 <= |packet| && Upper(packet).anyFragment
    ensures !Upper(packet).isFragment ==> !IsExtension(Upper(packet).next)
  {
    var start := [Place(packet[6], IPV6_HEADER)];
    assert start[..0] == [];
    var longer := WalkIsChain(packet, start);
    PlacesAfterHeader(packet, longer, |longer| - 1);
  }

  lemma {:induction false} PlacesAfterHeader(packet: seq<Byte>, places: seq<Place>, k: nat)
    requires Chain(packet, places) && k < |places|
    ensures places[k].offset >= IPV6_HEADER
  {
    if k > 0 {
      assert Link(packet, places[k - 1], places[k]);
      PlacesAfterHeader(packet, places, k - 1);
    }
  }

  /** Eight headers are one too many, whatever comes after them: the eighth turn is spent on the eighth. */
  lemma EightHeadersAreTooMany(packet: seq<Byte>, places: seq<Place>)
    requires Chain(packet, places) && |places| > MAX_TURNS
    ensures Upper(packet) == NotFound
  {
    assert places[..0] == [];
    TurnsRunOut(packet, places, 0);
  }

  lemma {:induction false} TurnsRunOut(packet: seq<Byte>, places: seq<Place>, k: nat)
    requires Chain(packet, places) && |places| > MAX_TURNS && k <= MAX_TURNS
    ensures Walk(packet, places[k], MAX_TURNS - k, HasFragment(places[..k])) == NotFound
    decreases MAX_TURNS - k
  {
    if k < MAX_TURNS {
      assert Link(packet, places[k], places[k + 1]);
      assert places[..k + 1][..k] == places[..k];
      TurnsRunOut(packet, places, k + 1);
    }
  }

  /** A packet with eight hop-by-hop headers of eight bytes each, and a TCP segment of twenty bytes after them. */
  function EightHeaders(): seq<Byte> {
    seq(124, i => if i == 96 then 6 else 0)
  }

  /** It has such a chain, to the TCP segment at index 104, which the walk does not find. */
  lemma EightHeadersAreRefused() returns (places: seq<Place>)
    ensures Leads(EightHeaders(), places, Found(6, 104, false, false)) && |places| == MAX_TURNS + 1
    ensures Upper(EightHeaders()) == NotFound
  {
    var packet := EightHeaders();
    places := seq(9, k requires 0 <= k < 9 => Place(if k == 8 then 6 else 0, 40 + 8 * k));
    forall k | 0 < k < |places| ensures Link(packet, places[k - 1], places[k]) {
      assert HasRoom(packet, places[k - 1]);
    }
    NoFragment(places, 9);
    EightHeadersAreTooMany(packet, places);
  }

  lemma {:induction false} NoFragment(places: seq<Place>, n: nat)
    requires n == |places| && forall k :: 0 <= k < |places| ==> places[k].next != 44
    ensures !HasFragment(places)
    decreases n
  {
    if n > 0 {
      NoFragment(places[..n - 1], n - 1);
    }
  }
}
