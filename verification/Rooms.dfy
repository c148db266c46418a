/** One matchmaking room: its members and their slots, its slot counters, flags and owner. */
module Rooms {
  import opened Common
  import opened SlotMasks

  /** Places of the flag bits: ROOM_FLAG_ATTR_FULL is 0x20000000, ROOMMEMBER_FLAG_ATTR_OWNER 0x80000000. */
  const FULL_BIT := 29
  const OWNER_BIT := 31

  datatype Group = Group(slotNum: nat, withPassword: bool)

  datatype Member = Member(
    memberId: nat, userId: int, npid: string, flagAttr: nat,
    blockedUsers: seq<string>, blockedAccounts: seq<int>)

  type Members = map<nat, Member>

  datatype Counts = Counts(publicSlots: nat, privateSlots: nat, openPublicSlots: nat, openPrivateSlots: nat)

  /** Who may join, as given at creation. */
  datatype Access = Access(allowedUsers: seq<string>, allowedAccounts: seq<int>, blockedAccounts: seq<int>)

  datatype RoomState = RoomState(
    worldId: nat, lobbyId: nat, maxSlot: nat, groups: seq<Group>, access: Access,
    blockedUsers: seq<string>,
    passwdSlotMask: Mask, flagAttr: nat, counts: Counts,
    ownerMemberId: nat, ownerSuccession: seq<nat>,
    members: Members, memberIdCounter: nat)

  // ---------------------------------------------------------------------------------------------
  // Slots and member ids

  /** A member id is its slot, four bits up, and a counter in the low four bits. */
  function SlotOf(id: nat): nat {
    id / 16
  }

  predicate Taken(members: Members, slot: nat) {
    exists id :: id in members && SlotOf(members[id].memberId) == slot
  }

  /** The first slot from `slot` to 64 that no member has; 65 when all are taken. */
  function LowestFree(members: Members, slot: nat): (r: nat)
    requires slot <= 65
    ensures slot <= r <= 65
    ensures r <= 64 ==> !Taken(members, r)
    ensures forall s :: slot <= s < r ==> Taken(members, s)
    decreases 65 - slot
  {
    if slot > 64 || !Taken(members, slot) then slot else LowestFree(members, slot + 1)
  }

  function NextCounter(counter: nat): nat {
    (counter + 1) % 16
  }

  function AllocId(room: RoomState): nat {
    LowestFree(room.members, 1) * 16 + NextCounter(room.memberIdCounter)
  }

  function WithMember(room: RoomState, proto: Member): RoomState {
    var id := AllocId(room);
    room.(members := room.members[id := proto.(memberId := id)], memberIdCounter := NextCounter(room.memberIdCounter))
  }

  /** Members keep their ids as keys, and sit in distinct slots 1..maxSlot. */
  ghost predicate SlotsOk(members: Members, maxSlot: nat) {
    && (forall id :: id in members ==> members[id].memberId == id && 1 <= SlotOf(id) <= maxSlot)
    && (forall a, b :: a in members && b in members && a != b ==> SlotOf(a) != SlotOf(b))
  }

  /** The places in a slot mask that the members' slots have. */
  function Seats(ids: set<nat>): set<int> {
    set id | id in ids :: SlotOf(id) - 1
  }

  lemma {:induction false} SeatsSize(ids: set<nat>)
    requires forall a, b :: a in ids && b in ids && a != b ==> SlotOf(a) != SlotOf(b)
    ensures |Seats(ids)| == |ids|
    decreases ids
  {
    hide SlotOf;
    if ids != {} {
      var id :| id in ids;
      SeatsSize(ids - {id});
      assert Seats(ids) == Seats(ids - {id}) + {SlotOf(id) - 1};
    }
  }

  lemma SeatsBelow(members: Members, maxSlot: nat)
    requires SlotsOk(members, maxSlot)
    ensures forall i :: i in Seats(members.Keys) ==> 0 <= i < maxSlot && i in Below(maxSlot)
  {
    hide SlotOf;
  }

  /** Distinct slots: as many as members, so no room has more members than slots. */
  lemma SeatsAsManyAsMembers(members: Members, maxSlot: nat)
    requires SlotsOk(members, maxSlot)
    ensures |Seats(members.Keys)| == |members| <= maxSlot
  {
    hide SlotOf, Below, Seats;
    SeatsSize(members.Keys);
    assert |members.Keys| == |members|;
    SeatsBelow(members, maxSlot);
    SubsetSize<int>(Seats(members.Keys), Below(maxSlot));
  }

  /** Pigeonhole: while the room is not full the lowest free slot is one of its own. */
  lemma FreeSlotExists(members: Members, maxSlot: nat)
    requires SlotsOk(members, maxSlot) && maxSlot <= 64 && |members| < maxSlot
    ensures 1 <= LowestFree(members, 1) <= maxSlot
  {
    hide LowestFree, Below, SlotOf;
    if LowestFree(members, 1) > maxSlot {
      forall i | i in Below(maxSlot)
        ensures i in Seats(members.Keys)
      {
        assert Taken(members, i + 1);
      }
      SeatsAsManyAsMembers(members, maxSlot);
      SubsetSize<int>(Below(maxSlot), Seats(members.Keys));
    }
  }

  /** A joiner gets a fresh id in a slot of its own. */
  lemma JoinKeepsSlots(room: RoomState, proto: Member)
    requires SlotsOk(room.members, room.maxSlot) && room.maxSlot <= 64 && |room.members| < room.maxSlot
    ensures AllocId(room) !in room.members
    ensures SlotsOk(WithMember(room, proto).members, room.maxSlot)
    ensures |WithMember(room, proto).members| == |room.members| + 1
  {
    FreeSlotExists(room.members, room.maxSlot);
    var id, slot := AllocId(room), LowestFree(room.members, 1);
    assert SlotOf(id) == slot;
    forall other | other in room.members
      ensures SlotOf(other) != slot
    {
      assert SlotOf(room.members[other].memberId) == SlotOf(other);
    }
    assert WithMember(room, proto).members.Keys == room.members.Keys + {id};
  }

  // ---------------------------------------------------------------------------------------------
  // Slot counters

  /** The bits of joinedSlotMask: one for each member's slot. */
  function JoinedBits(members: Members): set<nat> {
    set id | id in members && 1 <= SlotOf(members[id].memberId) <= 64 :: SlotOf(members[id].memberId) - 1
  }

  lemma JoinedAreSeats(members: Members, maxSlot: nat)
    requires SlotsOk(members, maxSlot) && maxSlot <= 64
    ensures JoinedBits(members) == Seats(members.Keys)
  {
    hide SlotOf;
    forall i | i in Seats(members.Keys)
      ensures i in JoinedBits(members)
    {
      var id :| id in members && i == SlotOf(id) - 1;
      assert members[id].memberId == id;
    }
  }

  /** As many bits as members. */
  lemma JoinedCount(members: Members, maxSlot: nat)
    requires SlotsOk(members, maxSlot) && maxSlot <= 64
    ensures |JoinedBits(members)| == |members|
    ensures JoinedBits(members) <= Below(maxSlot)
  {
    hide *;
    JoinedAreSeats(members, maxSlot);
    SeatsAsManyAsMembers(members, maxSlot);
    SeatsBelow(members, maxSlot);
  }

  /** The slots a group takes up: all of the room when it names no number. */
  function GroupSize(g: Group, maxSlot: nat): nat {
    if g.slotNum == 0 then maxSlot else g.slotNum
  }

  /** Groups take up slots one after the other: the place of group g's first slot. */
  function Start(groups: seq<Group>, maxSlot: nat, g: nat): nat
    requires g <= |groups|
  {
    if g == 0 then 0 else Start(groups, maxSlot, g - 1) + GroupSize(groups[g - 1], maxSlot)
  }

  /** Place i lies in a password group. */
  predicate PrivateAt(groups: seq<Group>, maxSlot: nat, i: nat) {
    exists g: nat :: g < |groups| && InGroup(groups, maxSlot, g, i) && groups[g].withPassword
  }

  predicate InGroup(groups: seq<Group>, maxSlot: nat, g: nat, i: nat)
    requires g < |groups|
  {
    Start(groups, maxSlot, g) <= i < Start(groups, maxSlot, g) + GroupSize(groups[g], maxSlot)
  }

  lemma {:induction false} StartMonotone(groups: seq<Group>, maxSlot: nat, g: nat, h: nat)
    requires g <= h <= |groups|
    ensures Start(groups, maxSlot, g) <= Start(groups, maxSlot, h)
    decreases h
  {
    if g < h {
      StartMonotone(groups, maxSlot, g, h - 1);
    }
  }

  /** A place in group g is private exactly when g has a password: it lies in no other group. */
  lemma PrivateInGroup(groups: seq<Group>, maxSlot: nat, g: nat, i: nat)
    requires g < |groups| && InGroup(groups, maxSlot, g, i)
    ensures PrivateAt(groups, maxSlot, i) <==> groups[g].withPassword
  {
    forall h: nat | h < |groups| && InGroup(groups, maxSlot, h, i)
      ensures h == g
    {
      if h < g {
        StartMonotone(groups, maxSlot, h + 1, g);
      } else if g < h {
        StartMonotone(groups, maxSlot, g + 1, h);
      }
    }
  }

  lemma NotPrivatePastGroups(groups: seq<Group>, maxSlot: nat, i: nat)
    requires Start(groups, maxSlot, |groups|) <= i
    ensures !PrivateAt(groups, maxSlot, i)
  {
    forall h: nat | h < |groups|
      ensures !InGroup(groups, maxSlot, h, i)
    {
      StartMonotone(groups, maxSlot, h + 1, |groups|);
    }
  }

  /** The slots below `n` that lie in a password group. */
  function GroupBits(groups: seq<Group>, maxSlot: nat, n: nat): set<nat> {
    set i: nat | i in Below(Min(n, 64)) && PrivateAt(groups, maxSlot, i)
  }

  /** The slots behind a password: those of the room's mask, or failing any, of its groups. */
  function PrivateBits(mask: Mask, groups: seq<Group>, maxSlot: nat): set<nat> {
    var masked := Bits(mask) * Below(Min(maxSlot, 64));
    if masked != {} then masked else GroupBits(groups, maxSlot, maxSlot)
  }

  function Split(valid: set<nat>, private: set<nat>, joined: set<nat>): Counts {
    Counts(|valid - private|, |private|, |valid - private - joined|, |private - joined|)
  }

  function CountsOf(room: RoomState): Counts {
    Split(Below(Min(room.maxSlot, 64)), PrivateBits(room.passwdSlotMask, room.groups, room.maxSlot),
          JoinedBits(room.members))
  }

  function Recomputed(room: RoomState): RoomState {
    room.(counts := CountsOf(room))
  }

  /** Public and private slots are all slots, the open ones all but the members': exactly for rooms
      of at most 64 slots, the width of a slot mask. */
  lemma CountersConserve(room: RoomState)
    requires SlotsOk(room.members, Min(room.maxSlot, 64))
    ensures var c := CountsOf(room);
      && (c.publicSlots + c.privateSlots == room.maxSlot <==> room.maxSlot <= 64)
      && (c.openPublicSlots + c.openPrivateSlots == room.maxSlot - |room.members| <==> room.maxSlot <= 64)
      && c.openPublicSlots <= c.publicSlots && c.openPrivateSlots <= c.privateSlots
  {
    hide Below, PrivateBits, JoinedBits, SlotsOk;
    var n := Min(room.maxSlot, 64);
    JoinedCount(room.members, n);
    PrivateBelow(room.passwdSlotMask, room.groups, room.maxSlot);
    SplitConserves(Below(n), PrivateBits(room.passwdSlotMask, room.groups, room.maxSlot), JoinedBits(room.members));
  }

  lemma PrivateBelow(mask: Mask, groups: seq<Group>, maxSlot: nat)
    ensures PrivateBits(mask, groups, maxSlot) <= Below(Min(maxSlot, 64))
  {
    hide Bits, Below, PrivateAt;
  }

  lemma SplitConserves(valid: set<nat>, private: set<nat>, joined: set<nat>)
    requires private <= valid && joined <= valid
    ensures var c := Split(valid, private, joined);
      && c.publicSlots + c.privateSlots == |valid|
      && c.openPublicSlots + c.openPrivateSlots == |valid| - |joined|
      && c.openPublicSlots <= c.publicSlots && c.openPrivateSlots <= c.privateSlots
  {
    assert valid == private + (valid - private);
    assert valid - joined == (private - joined) + (valid - private - joined);
    assert valid == joined + (valid - joined);
    SubsetSize(private - joined, private);
    SubsetSize(valid - private - joined, valid - private);
  }

  // ---------------------------------------------------------------------------------------------
  // What every reachable room keeps

  predicate IsFull(room: RoomState) {
    |room.members| >= room.maxSlot
  }

  predicate IsOwner(m: Member) {
    HasBit(m.flagAttr, OWNER_BIT)
  }

  ghost predicate Keyed(members: Members) {
    forall id :: id in members ==> members[id].memberId == id
  }

  ghost predicate DistinctNpids(members: Members) {
    forall a, b :: a in members && b in members && a != b ==> members[a].npid != members[b].npid
  }

  /** Exactly one member carries the owner bit: the room's owner. */
  ghost predicate OwnerOk(room: RoomState) {
    room.ownerMemberId in room.members &&
    forall id :: id in room.members ==> (IsOwner(room.members[id]) <==> id == room.ownerMemberId)
  }

  /** FULL is set exactly on rooms of two slots or more with every slot taken. */
  ghost predicate FlagOk(room: RoomState) {
    HasBit(room.flagAttr, FULL_BIT) <==> IsFull(room) && room.maxSlot >= 2
  }

  /** What a room of any size keeps. */
  ghost predicate RoomFit(room: RoomState) {
    && room.maxSlot >= 1 && room.members != map[]
    && Keyed(room.members) && DistinctNpids(room.members)
    && room.counts == CountsOf(room)
  }

  /** What a room of at most 64 slots keeps besides. */
  ghost predicate RoomExact(room: RoomState) {
    SlotsOk(room.members, room.maxSlot) && OwnerOk(room) && FlagOk(room)
  }

  ghost predicate RoomOk(room: RoomState) {
    RoomFit(room) && (room.maxSlot <= 64 ==> RoomExact(room))
  }

  // ---------------------------------------------------------------------------------------------
  // The commands on one room

  datatype Error =
    | RoomMissing | RoomFull | RoomAlreadyJoined | Blocked | Unauthorized | InvalidInput | NotFound

  datatype Outcome = Done(room: RoomState) | Gone | Failed(error: Error)

  /** What a creation request settles. */
  datatype Creation = Creation(
    worldId: nat, lobbyId: nat, maxSlots: nat, groups: seq<Group>, access: Access,
    blockedUsers: seq<string>, passwdSlotMask: Mask, flags: nat)

  /** CreateRoom: the creator is the first member and the owner; a requested FULL flag is dropped. */
  function Created(c: Creation, creator: Member): RoomState {
    var room := WithMember(EmptyRoom(c), creator.(flagAttr := OneAt(OWNER_BIT)));
    Recomputed(room.(ownerMemberId := AllocId(EmptyRoom(c))))
  }

  function EmptyRoom(c: Creation): RoomState {
    RoomState(c.worldId, c.lobbyId, Max(1, c.maxSlots % 0x1_0000), c.groups, c.access, c.blockedUsers,
              c.passwdSlotMask, AndNot(c.flags, OneAt(FULL_BIT)), Counts(0, 0, 0, 0), 0, [], map[], 0)
  }

  predicate HasNpid(members: Members, npid: string) {
    exists id :: id in members && members[id].npid == npid
  }

  /** The room's lists, the joiner's and the members' own keep them apart. */
  predicate KeptOut(room: RoomState, joiner: Member) {
    || (room.access.allowedUsers != [] && joiner.npid !in room.access.allowedUsers)
    || (room.access.allowedAccounts != [] && joiner.userId !in room.access.allowedAccounts)
    || joiner.npid in room.blockedUsers || joiner.userId in room.access.blockedAccounts
    || exists id :: id in room.members && Shuns(joiner, room.members[id])
  }

  predicate Shuns(a: Member, b: Member) {
    || b.npid in a.blockedUsers || b.userId in a.blockedAccounts
    || a.npid in b.blockedUsers || a.userId in b.blockedAccounts
  }

  function Join(room: RoomState, joiner: Member): Outcome {
    if IsFull(room) then Failed(RoomFull)
    else if HasNpid(room.members, joiner.npid) then Failed(RoomAlreadyJoined)
    else if KeptOut(room, joiner) then Failed(Blocked)
    else
      var joined := Recomputed(WithMember(room, joiner.(flagAttr := 0)));
      Done(if IsFull(joined) then joined.(flagAttr := Or(joined.flagAttr, OneAt(FULL_BIT))) else joined)
  }

  function DropAll(s: seq<nat>, x: nat): (r: seq<nat>)
    ensures forall y :: y in r <==> y in s && y != x
    ensures multiset(r) == multiset(s)[x := 0]
  {
    if s == [] then [] else
      assert s == [s[0]] + s[1..];
      (if s[0] == x then [] else [s[0]]) + DropAll(s[1..], x)
  }

  /** A member is gone: counters anew, FULL cleared. */
  function Removed(room: RoomState, id: nat): RoomState {
    var less := room.(members := room.members - {id}, ownerSuccession := DropAll(room.ownerSuccession, id));
    Recomputed(less).(flagAttr := AndNot(room.flagAttr, OneAt(FULL_BIT)))
  }

  /** The first of the line of succession that is still a member; the rest of the line behind it. */
  function Successor(line: seq<nat>, members: Members): (r: (Option<nat>, seq<nat>))
    ensures r.0.Some? ==> r.0.value in members && r.0.value in line
  {
    if line == [] then (None, [])
    else if line[0] in members then (Some(line[0]), line[1..])
    else Successor(line[1..], members)
  }

  function WithOwner(room: RoomState, id: nat): RoomState
    requires id in room.members
  {
    var m := room.members[id];
    room.(ownerMemberId := id, members := room.members[id := m.(flagAttr := Or(m.flagAttr, OneAt(OWNER_BIT)))])
  }

  /** LeaveRoom. `heir` is the member the hash table lists first among those that remain, who becomes
      owner when the line of succession names nobody. A successor id of 0 counts as nobody. */
  function Leave(room: RoomState, id: nat, heir: nat): Outcome
    requires id in room.members
    requires room.members.Keys != {id} ==> heir in room.members && heir != id
  {
    if room.members.Keys == {id} then Gone
    else
      var less := Removed(room, id);
      Done(if id != room.ownerMemberId then less else HandedOver(less, heir))
  }

  function HandedOver(room: RoomState, heir: nat): RoomState
    requires heir in room.members
  {
    var (next, line) := Successor(room.ownerSuccession, room.members);
    WithOwner(room.(ownerSuccession := line), if next.None? || next.value == 0 then heir else next.value)
  }

  /** KickoutRoomMember, asked by the member `kicker`. */
  function Kick(room: RoomState, kicker: nat, target: nat, block: bool): Outcome {
    if room.ownerMemberId != kicker then Failed(Unauthorized)
    else if target == 0 || target == kicker then Failed(InvalidInput)
    else if target !in room.members then Failed(NotFound)
    else
      var npid := room.members[target].npid;
      var listed := if block && npid !in room.blockedUsers then room.blockedUsers + [npid] else room.blockedUsers;
      Done(Removed(room.(blockedUsers := listed), target))
  }

  /** SetRoomDataInternal: flags under a filter that cannot touch FULL, and a new password mask. */
  function SetInternal(room: RoomState, flagFilter: nat, flagAttr: nat, mask: Option<Mask>): RoomState {
    var filter := AndNot(flagFilter, OneAt(FULL_BIT));
    var flagged := room.(flagAttr := Or(AndNot(room.flagAttr, filter), And(flagAttr, filter)));
    if mask.Some? then Recomputed(flagged.(passwdSlotMask := mask.value)) else flagged
  }

  // ---------------------------------------------------------------------------------------------
  // The commands keep rooms sound

  /** Setting or clearing FULL, and granting ownership, move that bit and no other. */
  lemma FlagBits(flags: nat, place: nat, i: nat)
    ensures HasBit(Or(flags, OneAt(place)), i) <==> HasBit(flags, i) || i == place
    ensures HasBit(AndNot(flags, OneAt(place)), i) <==> HasBit(flags, i) && i != place
  {
    hide HasBit, Or, AndNot, OneAt;
    OneAtBit(place, i);
    OrBit(flags, OneAt(place), i);
    AndNotBit(flags, OneAt(place), i);
  }

  lemma CreatedOk(c: Creation, creator: Member)
    ensures RoomOk(Created(c, creator))
    ensures Created(c, creator).members.Keys == {17} && Created(c, creator).members[17].npid == creator.npid
  {
    hide HasBit, AndNot, OneAt, Split, PrivateBits, JoinedBits, Below;
    var room := Created(c, creator);
    assert LowestFree(map[], 1) == 1;
    FlagBits(c.flags, FULL_BIT, FULL_BIT);
    OneAtBit(OWNER_BIT, OWNER_BIT);
    assert room.members == map[17 := creator.(flagAttr := OneAt(OWNER_BIT), memberId := 17)];
    assert |room.members| == 1;
  }

  lemma AddedMember(members: Members, m: Member)
    requires Keyed(members) && DistinctNpids(members) && !HasNpid(members, m.npid)
    ensures Keyed(members[m.memberId := m]) && DistinctNpids(members[m.memberId := m])
    ensures HasNpid(members[m.memberId := m], m.npid)
  {
    assert members[m.memberId := m][m.memberId].npid == m.npid;
  }

  lemma DroppedMember(members: Members, id: nat, maxSlot: nat)
    requires Keyed(members) && DistinctNpids(members) && id in members
    ensures Keyed(members - {id}) && DistinctNpids(members - {id})
    ensures SlotsOk(members, maxSlot) ==> SlotsOk(members - {id}, maxSlot)
    ensures |members - {id}| == |members| - 1
  {
    hide SlotOf;
    assert (members - {id}).Keys == members.Keys - {id};
    assert |members.Keys| == |members| && |(members - {id}).Keys| == |members - {id}|;
  }

  lemma ReplacedMember(members: Members, m: Member, maxSlot: nat)
    requires Keyed(members) && DistinctNpids(members)
    requires m.memberId in members && m.npid == members[m.memberId].npid
    ensures var next := members[m.memberId := m];
      && Keyed(next) && DistinctNpids(next) && next.Keys == members.Keys && |next| == |members|
      && (SlotsOk(members, maxSlot) ==> SlotsOk(next, maxSlot))
      && JoinedBits(next) == JoinedBits(members)
  {
    hide SlotOf;
    var next := members[m.memberId := m];
    assert next.Keys == members.Keys;
    assert |members.Keys| == |members| && |next.Keys| == |next|;
    forall id | id in members
      ensures next[id].memberId == members[id].memberId
    {
    }
  }

  lemma JoinFits(room: RoomState, joiner: Member)
    requires RoomFit(room) && Join(room, joiner).Done?
    ensures RoomFit(Join(room, joiner).room)
    ensures HasNpid(Join(room, joiner).room.members, joiner.npid)
  {
    hide HasBit, Or, OneAt, CountsOf, AllocId, Join, KeptOut, HasNpid, IsFull, DistinctNpids, Keyed;
    JoinShape(room, joiner);
    AddedMember(room.members, joiner.(flagAttr := 0, memberId := AllocId(room)));
  }

  /** A joiner only adds a member without flags, and sets FULL when the room fills up. */
  lemma JoinShape(room: RoomState, joiner: Member)
    requires Join(room, joiner).Done?
    ensures !HasNpid(room.members, joiner.npid) && !IsFull(room) && !KeptOut(room, joiner)
    ensures var next := Join(room, joiner).room;
      && next.members == room.members[AllocId(room) := joiner.(flagAttr := 0, memberId := AllocId(room))]
      && next.counts == CountsOf(next)
      && next.(members := room.members, flagAttr := room.flagAttr, counts := room.counts,
               memberIdCounter := room.memberIdCounter) == room
      && next.flagAttr == if IsFull(next) then Or(room.flagAttr, OneAt(FULL_BIT)) else room.flagAttr
  {
    hide HasBit, Or, OneAt, Split, PrivateBits, JoinedBits, Below, KeptOut, HasNpid, AllocId;
  }

  lemma JoinOk(room: RoomState, joiner: Member)
    requires RoomOk(room) && Join(room, joiner).Done?
    ensures RoomOk(Join(room, joiner).room)
    ensures HasNpid(Join(room, joiner).room.members, joiner.npid)
  {
    hide HasBit, Or, OneAt, CountsOf, AllocId, Join, KeptOut, HasNpid, SlotsOk, DistinctNpids, Keyed;
    JoinShape(room, joiner);
    JoinFits(room, joiner);
    FlagBits(room.flagAttr, FULL_BIT, FULL_BIT);
    ZeroHasNone(OWNER_BIT);
    if room.maxSlot <= 64 {
      JoinKeepsSlots(room, joiner.(flagAttr := 0));
    }
  }

  lemma OthersRemain(members: Members, id: nat)
    requires id in members && members.Keys != {id}
    ensures members - {id} != map[]
  {
    var other :| other in members && other != id;
    assert other in members - {id};
  }

  /** Whoever is removed, slots stay distinct and the room has a free one. */
  lemma RemovedOk(room: RoomState, id: nat)
    requires RoomOk(room) && id in room.members && room.members.Keys != {id}
    ensures RoomFit(Removed(room, id))
    ensures room.maxSlot <= 64 ==> SlotsOk(Removed(room, id).members, room.maxSlot) && FlagOk(Removed(room, id))
  {
    hide HasBit, AndNot, OneAt, Split, PrivateBits, JoinedBits, Below, SlotsOk, DistinctNpids, Keyed, DropAll;
    FlagBits(room.flagAttr, FULL_BIT, FULL_BIT);
    DroppedMember(room.members, id, room.maxSlot);
    OthersRemain(room.members, id);
    if room.maxSlot <= 64 {
      SeatsAsManyAsMembers(room.members, room.maxSlot);
    }
  }

  lemma WithOwnerOk(room: RoomState, id: nat)
    requires RoomFit(room) && id in room.members
    ensures RoomFit(WithOwner(room, id))
    ensures WithOwner(room, id).members.Keys == room.members.Keys
    ensures room.maxSlot <= 64 && SlotsOk(room.members, room.maxSlot) && FlagOk(room)
            && (forall x :: x in room.members ==> !IsOwner(room.members[x]))
            ==> RoomExact(WithOwner(room, id))
  {
    hide HasBit, Or, OneAt, Split, PrivateBits, JoinedBits, Below, SlotsOk, DistinctNpids;
    FlagBits(room.members[id].flagAttr, OWNER_BIT, OWNER_BIT);
    ReplacedMember(room.members, WithOwner(room, id).members[id], room.maxSlot);
  }

  /** The last member's leaving ends the room; any other leaving keeps it sound, and hands it over exactly
      when it is the owner's. */
  lemma LeaveOk(room: RoomState, id: nat, heir: nat)
    requires RoomOk(room) && id in room.members
    requires room.members.Keys != {id} ==> heir in room.members && heir != id
    ensures Leave(room, id, heir) == Gone <==> room.members.Keys == {id}
    ensures Leave(room, id, heir) != Gone ==> Leave(room, id, heir).Done? && RoomOk(Leave(room, id, heir).room)
  {
    hide HasBit, Or, AndNot, OneAt, CountsOf, Successor, DropAll, SlotsOk, DistinctNpids, Keyed;
    if room.members.Keys != {id} {
      var less := Removed(room, id);
      RemovedOk(room, id);
      if id == room.ownerMemberId {
        var (next, line) := Successor(less.ownerSuccession, less.members);
        var owner := if next.None? || next.value == 0 then heir else next.value;
        var handed := less.(ownerSuccession := line);
        assert CountsOf(handed) == CountsOf(less) by {
          SameCounts(handed, less);
        }
        WithOwnerOk(handed, owner);
      }
    }
  }

  lemma SameCounts(a: RoomState, b: RoomState)
    requires a.passwdSlotMask == b.passwdSlotMask && a.maxSlot == b.maxSlot && a.groups == b.groups
    requires a.members == b.members
    ensures CountsOf(a) == CountsOf(b)
  {
  }

  /** The members that remain are those that were there, under their names; the owner changes only when it
      is the one that leaves, and then to one of them; nobody is unblocked. */
  lemma LeaveEffect(room: RoomState, id: nat, heir: nat)
    requires RoomOk(room) && id in room.members
    requires room.members.Keys != {id} ==> heir in room.members && heir != id
    requires Leave(room, id, heir) != Gone
    ensures var next := Leave(room, id, heir).room;
      && next.members.Keys == room.members.Keys - {id}
      && (forall x :: x in next.members ==> next.members[x].npid == room.members[x].npid)
      && next.ownerMemberId in (if id == room.ownerMemberId then next.members.Keys else {room.ownerMemberId})
      && next.blockedUsers == room.blockedUsers
      && next.worldId == room.worldId && next.lobbyId == room.lobbyId && next.maxSlot == room.maxSlot
  {
    hide HasBit, Or, AndNot, OneAt, CountsOf, Successor, DropAll, SlotsOk, DistinctNpids, Keyed;
  }

  /** Only the owner kicks, and never itself: the room stays non-empty and its owner the same. */
  lemma KickOk(room: RoomState, kicker: nat, target: nat, block: bool)
    requires RoomOk(room) && kicker in room.members && Kick(room, kicker, target, block).Done?
    ensures var next := Kick(room, kicker, target, block).room;
      && RoomOk(next) && next.members == room.members - {target} && next.ownerMemberId == room.ownerMemberId
      && (forall x :: x in room.blockedUsers ==> x in next.blockedUsers)
      && (block ==> room.members[target].npid in next.blockedUsers)
  {
    hide HasBit, AndNot, OneAt, CountsOf, DropAll, SlotsOk, DistinctNpids, Keyed;
    var npid := room.members[target].npid;
    var listed := room.(blockedUsers :=
      if block && npid !in room.blockedUsers then room.blockedUsers + [npid] else room.blockedUsers);
    SameCounts(room, listed);
    RemovedOk(listed, target);
  }

  /** No filter reaches the FULL flag; every other flag takes the value given exactly where filtered. */
  lemma SetInternalFlags(room: RoomState, flagFilter: nat, flagAttr: nat, mask: Option<Mask>, i: nat)
    ensures HasBit(SetInternal(room, flagFilter, flagAttr, mask).flagAttr, i) <==>
              if HasBit(flagFilter, i) && i != FULL_BIT then HasBit(flagAttr, i) else HasBit(room.flagAttr, i)
  {
    hide HasBit, Or, And, AndNot, OneAt, CountsOf;
    var filter := AndNot(flagFilter, OneAt(FULL_BIT));
    FlagBits(flagFilter, FULL_BIT, i);
    AndNotBit(room.flagAttr, filter, i);
    AndBit(flagAttr, filter, i);
    OrBit(AndNot(room.flagAttr, filter), And(flagAttr, filter), i);
  }

  lemma SetInternalOk(room: RoomState, flagFilter: nat, flagAttr: nat, mask: Option<Mask>)
    requires RoomOk(room)
    ensures RoomOk(SetInternal(room, flagFilter, flagAttr, mask))
  {
    hide HasBit, Or, And, AndNot, OneAt, Split, PrivateBits, JoinedBits, Below, SlotsOk, DistinctNpids, Keyed;
    SetInternalFlags(room, flagFilter, flagAttr, mask, FULL_BIT);
  }

  /** Past 64 slots the allocator runs out: with slots 1 to 64 taken, a joiner is given slot 65, which no
      mask bit shows. */
  lemma SlotSixtyFiveIsUncounted(room: RoomState, joiner: Member)
    requires forall s: nat :: 1 <= s <= 64 ==> Taken(room.members, s)
    requires AllocId(room) !in room.members
    ensures SlotOf(AllocId(room)) == 65
    ensures JoinedBits(WithMember(room, joiner).members) == JoinedBits(room.members)
    ensures |WithMember(room, joiner).members| == |room.members| + 1
  {
    var id, next := AllocId(room), WithMember(room, joiner);
    assert SlotOf(id) == 65;
    assert forall x :: x in room.members ==> next.members[x] == room.members[x];
    assert next.members.Keys == room.members.Keys + {id};
    assert |next.members.Keys| == |next.members| && |room.members.Keys| == |room.members|;
  }

  /** Every slot the allocator looks at is taken. */
  ghost predicate NoneFree(members: Members) {
    forall s: nat :: 1 <= s <= 64 ==> Taken(members, s)
  }

  /** A joiner is given the id of a member, and so takes its place in the table, exactly when no slot is free
      and a member in slot 65 was given an id at the same count. */
  lemma JoinReplacesIff(room: RoomState)
    requires Keyed(room.members)
    ensures AllocId(room) in room.members <==>
      NoneFree(room.members) && 65 * 16 + NextCounter(room.memberIdCounter) in room.members
  {
    var slot, id := LowestFree(room.members, 1), AllocId(room);
    assert SlotOf(id) == slot;
    if id in room.members {
      assert SlotOf(room.members[id].memberId) == slot;
      assert Taken(room.members, slot);
    }
  }

  function AfterJoins(room: RoomState, joiners: seq<Member>): RoomState {
    if joiners == [] then room
    else WithMember(AfterJoins(room, joiners[..|joiners| - 1]), joiners[|joiners| - 1])
  }

  lemma JoinKeepsNoneFree(room: RoomState, joiner: Member)
    requires Keyed(room.members) && NoneFree(room.members)
    ensures Keyed(WithMember(room, joiner).members) && NoneFree(WithMember(room, joiner).members)
  {
    var id, next := AllocId(room), WithMember(room, joiner).members;
    forall s: nat | 1 <= s <= 64
      ensures Taken(next, s)
    {
      assert Taken(room.members, s);
      var other :| other in room.members && SlotOf(room.members[other].memberId) == s;
      assert next[other] == room.members[other];
    }
  }

  lemma LastId(room: RoomState)
    requires NoneFree(room.members)
    ensures AllocId(room) == 65 * 16 + NextCounter(room.memberIdCounter)
  {
  }

  lemma {:induction false} CounterAfter(room: RoomState, joiners: seq<Member>)
    ensures NextCounter(AfterJoins(room, joiners).memberIdCounter) == (room.memberIdCounter + |joiners| + 1) % 16
    decreases |joiners|
  {
    hide AllocId, NextCounter;
    if joiners == [] {
      CounterStep(room.memberIdCounter);
    } else {
      CounterAfter(room, joiners[..|joiners| - 1]);
      CounterStep(room.memberIdCounter + |joiners|);
    }
  }

  lemma CounterStep(n: nat)
    ensures NextCounter(n) == (n + 1) % 16 && NextCounter(n % 16) == (n + 1) % 16
  {
  }

  lemma {:induction false} NoneFreeAfter(room: RoomState, joiners: seq<Member>)
    requires Keyed(room.members) && NoneFree(room.members)
    ensures Keyed(AfterJoins(room, joiners).members) && NoneFree(AfterJoins(room, joiners).members)
    decreases |joiners|
  {
    hide NoneFree, Keyed, WithMember;
    if joiners != [] {
      NoneFreeAfter(room, joiners[..|joiners| - 1]);
      JoinKeepsNoneFree(AfterJoins(room, joiners[..|joiners| - 1]), joiners[|joiners| - 1]);
    }
  }

  /** Joiners past the last slot are given sixteen ids in turn. */
  lemma IdsRepeat(room: RoomState, joiners: seq<Member>)
    requires Keyed(room.members) && NoneFree(room.members)
    ensures AllocId(AfterJoins(room, joiners)) == 65 * 16 + (room.memberIdCounter + |joiners| + 1) % 16
  {
    hide *;
    NoneFreeAfter(room, joiners);
    CounterAfter(room, joiners);
    LastId(AfterJoins(room, joiners));
  }

  lemma {:induction false} FirstStaysForSixteen(room: RoomState, joiners: seq<Member>)
    requires Keyed(room.members) && NoneFree(room.members) && 1 <= |joiners| <= 16
    ensures AllocId(room) in AfterJoins(room, joiners).members
    ensures AfterJoins(room, joiners).members[AllocId(room)] == joiners[0].(memberId := AllocId(room))
    decreases |joiners|
  {
    hide NoneFree, Keyed, AllocId;
    if |joiners| > 1 {
      FirstStaysForSixteen(room, joiners[..|joiners| - 1]);
      IdsRepeat(room, joiners[..|joiners| - 1]);
      IdsRepeat(room, []);
    }
  }

  /** The first of them is a member until the seventeenth joins, who is given its id and its place. */
  lemma SeventeenthReplacesFirst(room: RoomState, joiners: seq<Member>, last: Member)
    requires Keyed(room.members) && NoneFree(room.members) && |joiners| == 16
    ensures var full := AfterJoins(room, joiners);
      && AllocId(full) == AllocId(room) && AllocId(room) in full.members
      && full.members[AllocId(room)] == joiners[0].(memberId := AllocId(room))
      && WithMember(full, last).members == full.members[AllocId(room) := last.(memberId := AllocId(room))]
      && |WithMember(full, last).members| == |full.members|
  {
    hide NoneFree, Keyed, AllocId;
    FirstStaysForSixteen(room, joiners);
    IdsRepeat(room, joiners);
    IdsRepeat(room, []);
    var full := AfterJoins(room, joiners);
    assert WithMember(full, last).members.Keys == full.members.Keys;
    assert |WithMember(full, last).members.Keys| == |WithMember(full, last).members|;
    assert |full.members.Keys| == |full.members|;
  }

  // ---------------------------------------------------------------------------------------------
  // The room object

  /** The groups before g give the mask the private places below the start of g. */
  ghost predicate MaskUpTo(mask: nat, groups: seq<Group>, maxSlot: nat, slotBase: nat) {
    Bits(mask) == GroupBits(groups, maxSlot, slotBase)
  }

  lemma NextPlace(mask: nat, groups: seq<Group>, maxSlot: nat, g: nat, slotBase: nat)
    requires MaskUpTo(mask, groups, maxSlot, slotBase)
    requires g < |groups| && InGroup(groups, maxSlot, g, slotBase)
    ensures MaskUpTo(if groups[g].withPassword then Or(mask, Shifted(slotBase)) else mask,
                     groups, maxSlot, slotBase + 1)
  {
    hide Bits, PrivateAt, Start, Or, OneAt, InGroup, Below, GroupBits, Shifted;
    PrivateInGroup(groups, maxSlot, g, slotBase);
    ShiftedBits(mask, slotBase);
    OnePlaceMore(groups, maxSlot, slotBase);
  }

  lemma OnePlaceMore(groups: seq<Group>, maxSlot: nat, n: nat)
    ensures GroupBits(groups, maxSlot, n + 1) ==
            GroupBits(groups, maxSlot, n) + if n < 64 && PrivateAt(groups, maxSlot, n) then {n} else {}
  {
    hide Below, PrivateAt;
  }

  lemma ShiftedBits(mask: nat, n: nat)
    ensures Bits(Or(mask, Shifted(n))) == Bits(mask) + if n < 64 then {n} else {}
  {
    hide Bits, Or, OneAt;
    OpsBits(mask, Shifted(n));
    NoBits();
    if n < 64 {
      OneBit(n);
    }
  }

  /** 1ull << n. A shift past the word has no defined value in the source; here it adds no bit. */
  function Shifted(n: nat): nat {
    if n < 64 then OneAt(n) else 0
  }

  lemma MaskComplete(mask: nat, groups: seq<Group>, maxSlot: nat, slotBase: nat)
    requires MaskUpTo(mask, groups, maxSlot, slotBase) && slotBase <= maxSlot
    requires slotBase < maxSlot ==> Start(groups, maxSlot, |groups|) <= slotBase
    ensures MaskUpTo(mask, groups, maxSlot, maxSlot)
  {
    hide Bits, PrivateAt, Start;
    forall i: nat | slotBase <= i < maxSlot
      ensures !PrivateAt(groups, maxSlot, i)
    {
      NotPrivatePastGroups(groups, maxSlot, i);
    }
  }

  lemma SetSlotBit(mask: nat, slot: nat)
    requires mask < WORD && 1 <= slot <= 64
    ensures Bits(Or(mask, OneAt(slot - 1))) == Bits(mask) + {slot - 1}
    ensures Or(mask, OneAt(slot - 1)) < WORD
  {
    hide Bits, Or, OneAt;
    OpsBits(mask, OneAt(slot - 1));
    OneBit(slot - 1);
    OrStaysWord(mask, slot - 1);
  }

  lemma OrStaysWord(mask: nat, n: nat)
    requires mask < WORD
    ensures n < 64 ==> Or(mask, OneAt(n)) < WORD
    ensures Or(mask, Shifted(n)) < WORD
  {
    hide Bits, Or, OneAt;
    WordIsOneAt64();
    if n < 64 {
      OneAtMonotone(n + 1, 64);
      assert OneAt(n) < OneAt(64) by {
        DoubleIsMore(n);
      }
    }
    OpsBounded(mask, Shifted(n), 64);
  }

  lemma DoubleIsMore(n: nat)
    ensures OneAt(n) < OneAt(n + 1)
  {
  }

  class Room {
    var worldId: nat
    var lobbyId: nat
    var maxSlot: nat
    var groups: seq<Group>
    var access: Access
    var blockedUsers: seq<string>
    var passwdSlotMask: Mask
    var flagAttr: nat
    var publicSlots: nat
    var privateSlots: nat
    var openPublicSlots: nat
    var openPrivateSlots: nat
    var ownerMemberId: nat
    var ownerSuccession: seq<nat>
    var members: Members
    var memberIdCounter: nat

    ghost function State(): RoomState
      reads this
    {
      RoomState(worldId, lobbyId, maxSlot, groups, access, blockedUsers, passwdSlotMask, flagAttr,
                Counts(publicSlots, privateSlots, openPublicSlots, openPrivateSlots),
                ownerMemberId, ownerSuccession, members, memberIdCounter)
    }

    lemma Shown()
      ensures var s := State();
        && s.worldId == worldId && s.lobbyId == lobbyId && s.members == members && s.maxSlot == maxSlot
        && s.ownerMemberId == ownerMemberId && s.blockedUsers == blockedUsers
    {
    }

    /** CreateRoom up to the room's entry in the tables. */
    constructor (c: Creation, creator: Member)
      ensures State() == Created(c, creator)
    {
      worldId, lobbyId := c.worldId, c.lobbyId;
      maxSlot := if c.maxSlots % 0x1_0000 < 1 then 1 else c.maxSlots % 0x1_0000;
      groups, access, blockedUsers, passwdSlotMask := c.groups, c.access, c.blockedUsers, c.passwdSlotMask;
      flagAttr := AndNot(c.flags, OneAt(FULL_BIT));
      publicSlots, privateSlots, openPublicSlots, openPrivateSlots := 0, 0, 0, 0;
      ownerMemberId, ownerSuccession, members, memberIdCounter := 0, [], map[], 0;
      new;
      hide CountsOf, AndNot, OneAt, AllocId, Recomputed, WithMember;
      ghost var was := State();
      assert was == EmptyRoom(c);
      var id := AddMember(creator.(flagAttr := OneAt(OWNER_BIT)));
      ghost var joined := State();
      ownerMemberId := id;
      assert State() == joined.(ownerMemberId := id);
      RecomputeRoomSlotCounts();
    }

    /** allocMemberId: the lowest slot no member has, and the next counter. */
    method AllocMemberId() returns (id: nat)
      modifies this`memberIdCounter
      ensures id == old(AllocId(State()))
      ensures State() == old(State()).(memberIdCounter := NextCounter(old(memberIdCounter)))
    {
      hide SlotOf, Taken;
      ghost var was := State();
      var slot := 1;
      while slot <= 64
        invariant 1 <= slot <= 65 && State() == was
        invariant LowestFree(members, 1) == LowestFree(members, slot)
      {
        var taken := SlotTaken(slot);
        if !taken {
          break;
        }
        slot := slot + 1;
      }
      assert slot == LowestFree(was.members, 1);
      memberIdCounter := (memberIdCounter + 1) % 16;
      id := slot * 16 + memberIdCounter;
    }

    method SlotTaken(slot: nat) returns (taken: bool)
      ensures taken == Taken(members, slot)
    {
      var rest := members.Keys;
      while rest != {}
        invariant rest <= members.Keys
        invariant forall id :: id in members && id !in rest ==> SlotOf(members[id].memberId) != slot
      {
        var id :| id in rest;
        if SlotOf(members[id].memberId) == slot {
          return true;
        }
        rest := rest - {id};
      }
      return false;
    }

    method AddMember(proto: Member) returns (id: nat)
      modifies this`members, this`memberIdCounter
      ensures id == old(AllocId(State()))
      ensures State() == WithMember(old(State()), proto)
    {
      hide AllocId;
      id := AllocMemberId();
      members := members[id := proto.(memberId := id)];
    }

    /** removeMember: false, and nothing done, when there is no such member. */
    method RemoveMember(memberId: nat) returns (found: bool)
      modifies this`members
      ensures found == (memberId in old(members))
      ensures members == old(members) - {memberId}
    {
      found := memberId in members;
      if found {
        members := members - {memberId};
      } else {
        assert members == members - {memberId};
      }
    }

    method FindByNpid(npid: string) returns (id: Option<nat>)
      ensures id.Some? ==> id.value in members && members[id.value].npid == npid
      ensures id.None? ==> !HasNpid(members, npid)
    {
      var rest := members.Keys;
      while rest != {}
        invariant rest <= members.Keys
        invariant forall x :: x in members && x !in rest ==> members[x].npid != npid
      {
        var x :| x in rest;
        if members[x].npid == npid {
          return Some(x);
        }
        rest := rest - {x};
      }
      return None;
    }

    /** joinedSlotMask: one bit for each member's slot, and no other. */
    method JoinedSlotMask() returns (mask: Mask)
      ensures Bits(mask) == JoinedBits(members)
    {
      hide Bits, Or, OneAt, SlotOf;
      mask := 0;
      NoBits();
      var rest := members.Keys;
      ghost var seen: Members := map[];
      while rest != {}
        invariant rest <= members.Keys
        invariant Bits(mask) == (set id | id in members && id !in rest && 1 <= SlotOf(members[id].memberId) <= 64
                                     :: SlotOf(members[id].memberId) - 1)
      {
        var id :| id in rest;
        var slot := SlotOf(members[id].memberId);
        if 0 < slot <= 64 {
          SetSlotBit(mask, slot);
          mask := Or(mask, OneAt(slot - 1));
        }
        rest := rest - {id};
      }
    }

    /** GroupPasswordSlotMask: the valid places in password groups. */
    method GroupPasswordSlotMask(validSlots: Mask) returns (mask: Mask)
      ensures Bits(mask) == GroupBits(groups, maxSlot, maxSlot) * Bits(validSlots)
    {
      hide Bits, Or, And, OneAt, PrivateAt;
      var word: Mask := 0;
      NoBits();
      var slotBase, g := 0, 0;
      while g < |groups|
        invariant g <= |groups| && slotBase <= maxSlot
        invariant slotBase == Min(Start(groups, maxSlot, g), maxSlot)
        invariant MaskUpTo(word, groups, maxSlot, slotBase)
      {
        var slotCount := if groups[g].slotNum == 0 then maxSlot else groups[g].slotNum;
        var i := 0;
        ghost var base := slotBase;
        while i < slotCount && slotBase < maxSlot
          invariant i <= slotCount && base <= slotBase == base + i <= maxSlot
          invariant MaskUpTo(word, groups, maxSlot, slotBase)
        {
          NextPlace(word, groups, maxSlot, g, slotBase);
          if groups[g].withPassword {
            OrStaysWord(word, slotBase);
            word := Or(word, Shifted(slotBase));
          }
          i, slotBase := i + 1, slotBase + 1;
        }
        if slotBase >= maxSlot {
          break;
        }
        g := g + 1;
      }
      MaskComplete(word, groups, maxSlot, slotBase);
      WordIsOneAt64();
      OpsBounded(word, validSlots, 64);
      OpsBits(word, validSlots);
      mask := And(word, validSlots);
    }

    /** The counters of the room as it stands, from its masks. */
    method SlotCounts() returns (counts: Counts)
      ensures counts == CountsOf(State())
    {
      hide Bits, And, AndNot, PrivateBits, JoinedBits, Below, SlotMaskForMaxSlot, HasBit, Split;
      SlotMaskBits(maxSlot);
      var validSlots: Mask := SlotMaskForMaxSlot(maxSlot);
      var private := PrivateSlotMask(validSlots);
      var joined := JoinedSlotMask();
      MaskOps(joined, validSlots);
      joined := And(joined, validSlots);
      MaskOps(validSlots, private);
      var public: Mask := AndNot(validSlots, private);
      MaskOps(public, joined);
      MaskOps(private, joined);
      var publicCount := CountSlots(public);
      var privateCount := CountSlots(private);
      var openPublicCount := CountSlots(AndNot(public, joined));
      var openPrivateCount := CountSlots(AndNot(private, joined));
      counts := Counts(publicCount, privateCount, openPublicCount, openPrivateCount);
      CountsFromBits(State(), Bits(validSlots), Bits(private), Bits(joined));
    }

    /** RecomputeRoomSlotCounts: the counters become those of the members, groups and mask. */
    method RecomputeRoomSlotCounts()
      modifies this`publicSlots, this`privateSlots, this`openPublicSlots, this`openPrivateSlots
      ensures State() == Recomputed(old(State()))
    {
      hide CountsOf;
      var counts := SlotCounts();
      publicSlots, privateSlots := counts.publicSlots, counts.privateSlots;
      openPublicSlots, openPrivateSlots := counts.openPublicSlots, counts.openPrivateSlots;
    }

    /** The member goes, and its place in the line of succession. */
    method Strike(memberId: nat)
      modifies this`members, this`ownerSuccession
      ensures members == old(members) - {memberId}
      ensures ownerSuccession == DropAll(old(ownerSuccession), memberId)
    {
      var _ := RemoveMember(memberId);
      ownerSuccession := DropAll(ownerSuccession, memberId);
    }

    /** After a removal: counters anew, FULL cleared. */
    method Reopen()
      modifies this`publicSlots, this`privateSlots, this`openPublicSlots, this`openPrivateSlots, this`flagAttr
      ensures State() == Recomputed(old(State())).(flagAttr := AndNot(old(flagAttr), OneAt(FULL_BIT)))
    {
      hide CountsOf, AndNot, OneAt;
      RecomputeRoomSlotCounts();
      flagAttr := AndNot(flagAttr, OneAt(FULL_BIT));
    }

    /** The owner is gone: the first of its line that is still a member follows, else the first member that
        the hash table lists. */
    method PassOwnership() returns (heir: nat)
      requires members != map[]
      modifies this`ownerSuccession, this`ownerMemberId, this`members
      ensures heir in old(members) && State() == HandedOver(old(State()), heir)
    {
      hide Or, OneAt;
      ghost var was := State();
      var newOwner := 0;
      while ownerSuccession != []
        invariant State() == was.(ownerSuccession := ownerSuccession) && newOwner == 0
        invariant Successor(was.ownerSuccession, was.members) == Successor(ownerSuccession, was.members)
        decreases |ownerSuccession|
      {
        var candidate := ownerSuccession[0];
        ownerSuccession := ownerSuccession[1..];
        if candidate in members {
          newOwner := candidate;
          break;
        }
      }
      heir :| heir in members;
      if newOwner == 0 {
        newOwner := heir;
      }
      ownerMemberId := newOwner;
      members := members[newOwner := members[newOwner].(flagAttr := Or(members[newOwner].flagAttr, OneAt(OWNER_BIT)))];
    }

    /** CmdJoinRoom inside the room: refused and unchanged, or a member more. */
    method Admit(joiner: Member) returns (refused: Option<Error>, id: nat)
      modifies this
      ensures Ended(Join(old(State()), joiner), old(State()), refused, State())
      ensures refused.None? ==> id == AllocId(old(State()))
    {
      hide CountsOf, Or, OneAt, AllocId, HasNpid, Shuns;
      ghost var was := State();
      id := 0;
      if |members| >= maxSlot {
        return Some(RoomFull), id;
      }
      var present := FindByNpid(joiner.npid);
      if present.Some? {
        assert HasNpid(members, joiner.npid) by {
          Named(members, present.value);
        }
        return Some(RoomAlreadyJoined), id;
      }
      if (access.allowedUsers != [] && joiner.npid !in access.allowedUsers)
         || (access.allowedAccounts != [] && joiner.userId !in access.allowedAccounts)
         || joiner.npid in blockedUsers || joiner.userId in access.blockedAccounts {
        return Some(Blocked), id;
      }
      var shunned := ShunnedByOrShunning(joiner);
      if shunned {
        return Some(Blocked), id;
      }
      assert !KeptOut(was, joiner);
      id := AddMember(joiner.(flagAttr := 0));
      RecomputeRoomSlotCounts();
      assert State() == Recomputed(WithMember(was, joiner.(flagAttr := 0)));
      if |members| >= maxSlot {
        flagAttr := Or(flagAttr, OneAt(FULL_BIT));
      }
      refused := None;
    }

    method ShunnedByOrShunning(joiner: Member) returns (shunned: bool)
      ensures shunned == exists id :: id in members && Shuns(joiner, members[id])
    {
      hide Shuns;
      var rest := members.Keys;
      while rest != {}
        invariant rest <= members.Keys
        invariant forall id :: id in members && id !in rest ==> !Shuns(joiner, members[id])
      {
        var id :| id in rest;
        if Shuns(joiner, members[id]) {
          return true;
        }
        rest := rest - {id};
      }
      return false;
    }

    /** CmdLeaveRoom inside the room: the last member leaves it empty; else `heir` is the member that the
        hash table lists first among those that remain. */
    method Depart(id: nat) returns (emptied: bool, ghost heir: nat)
      requires id in members
      modifies this
      ensures emptied == (old(members).Keys == {id})
      ensures !emptied ==> heir in old(members) && heir != id && Leave(old(State()), id, heir) == Done(State())
      ensures emptied ==> worldId == old(worldId) && lobbyId == old(lobbyId)
    {
      hide CountsOf, Or, AndNot, OneAt, DropAll, Successor;
      ghost var was := State();
      var wasOwner := id == ownerMemberId;
      Strike(id);
      heir := 0;
      emptied := members == map[];
      if emptied {
        NoneRemain(was.members, id);
      } else {
        Reopen();
        assert State() == Removed(was, id);
        heir :| heir in members;
        if wasOwner {
          heir := PassOwnership();
        }
      }
    }

    /** CmdKickoutRoomMember inside the room. */
    method Kickout(kicker: nat, target: nat, block: bool) returns (refused: Option<Error>)
      modifies this
      ensures Ended(Kick(old(State()), kicker, target, block), old(State()), refused, State())
    {
      hide CountsOf, AndNot, OneAt, DropAll;
      if ownerMemberId != kicker {
        return Some(Unauthorized);
      }
      if target == 0 || target == kicker {
        return Some(InvalidInput);
      }
      if target !in members {
        return Some(NotFound);
      }
      var npid := members[target].npid;
      if block && npid !in blockedUsers {
        blockedUsers := blockedUsers + [npid];
      }
      Strike(target);
      Reopen();
      refused := None;
    }

    /** CmdSetRoomDataInternal inside the room. */
    method SetData(flagFilter: nat, flags: nat, mask: Option<Mask>)
      modifies this
      ensures State() == SetInternal(old(State()), flagFilter, flags, mask)
    {
      hide CountsOf, Or, And, AndNot, OneAt;
      var filter := AndNot(flagFilter, OneAt(FULL_BIT));
      flagAttr := Or(AndNot(flagAttr, filter), And(flags, filter));
      if mask.Some? {
        passwdSlotMask := mask.value;
        RecomputeRoomSlotCounts();
      }
    }

    method PrivateSlotMask(validSlots: Mask) returns (private: Mask)
      requires Bits(validSlots) == Below(Min(maxSlot, 64))
      ensures Bits(private) == PrivateBits(passwdSlotMask, groups, maxSlot)
    {
      hide Bits, And, Below, PrivateAt;
      MaskOps(passwdSlotMask, validSlots);
      private := And(passwdSlotMask, validSlots);
      ZeroIffNoBits(private);
      if private == 0 {
        private := GroupPasswordSlotMask(validSlots);
      }
    }
  }

  /** A command on one room came to this outcome: refused with the room as it was, or done. */
  predicate Ended(outcome: Outcome, before: RoomState, refused: Option<Error>, after: RoomState) {
    if refused.Some? then outcome == Failed(refused.value) && after == before else outcome == Done(after)
  }

  lemma Named(members: Members, id: nat)
    requires id in members
    ensures HasNpid(members, members[id].npid)
  {
  }

  lemma NoneRemain(members: Members, id: nat)
    requires id in members && members - {id} == map[]
    ensures members.Keys == {id}
  {
    if members.Keys != {id} {
      OthersRemain(members, id);
    }
  }

  lemma CountsFromBits(room: RoomState, valid: set<nat>, private: set<nat>, joined: set<nat>)
    requires valid == Below(Min(room.maxSlot, 64))
    requires private == PrivateBits(room.passwdSlotMask, room.groups, room.maxSlot)
    requires joined == JoinedBits(room.members) * valid
    ensures CountsOf(room) == Counts(|valid - private|, |private|, |valid - private - joined|, |private - joined|)
  {
    hide Below, PrivateBits, JoinedBits;
    PrivateBelow(room.passwdSlotMask, room.groups, room.maxSlot);
    assert valid - private - joined == valid - private - JoinedBits(room.members);
    assert private - joined == private - JoinedBits(room.members);
  }

  /** And and AndNot on words are words, and intersect and subtract the bits. */
  lemma MaskOps(a: Mask, b: Mask)
    ensures And(a, b) < WORD && AndNot(a, b) < WORD
    ensures Bits(And(a, b)) == Bits(a) * Bits(b)
    ensures Bits(AndNot(a, b)) == Bits(a) - Bits(b)
  {
    hide Bits, And, AndNot, OneAt;
    WordIsOneAt64();
    OpsBounded(a, b, 64);
    OpsBits(a, b);
  }

  lemma ZeroIffNoBits(m: Mask)
    ensures m == 0 <==> Bits(m) == {}
  {
    NoBits();
    if m != 0 {
      var i := SomeBit(m);
      assert i in Bits(m);
    }
  }
}
