/** The matchmaking server's rooms: the room table, its world and lobby indices, and the commands on them. */
module Matching {
  import opened Common
  import opened SlotMasks
  import opened Rooms

  /** A title's matching key and a room id; or a matching key and a world or lobby id. */
  type RoomKey = (string, nat)
  type PlaceKey = (string, nat)
  type Index = map<PlaceKey, seq<nat>>

  datatype Server = Server(rooms: map<RoomKey, RoomState>, worldRooms: Index, lobbyRooms: Index, nextRoomId: nat)

  datatype Call =
    | CreateRoom(key: string, creation: Creation, creator: Member)
    | JoinRoom(key: string, roomId: nat, joiner: Member)
    | LeaveRoom(key: string, roomId: nat, npid: string, hint: nat)
    | KickoutRoomMember(key: string, roomId: nat, npid: string, target: nat, block: bool)
    | SetRoomDataInternal(key: string, roomId: nat, flagFilter: nat, flagAttr: nat, mask: Option<Mask>)

  datatype Reply = Entered(roomId: nat, memberId: nat) | Accepted | Refused(error: Error)

  const NEW_SERVER := Server(map[], map[], map[], 1)

  // ---------------------------------------------------------------------------------------------
  // The indices

  function Listed(index: Index, place: PlaceKey): seq<nat> {
    if place in index then index[place] else []
  }

  /** How often a place lists a room. */
  function Times(index: Index, place: PlaceKey, roomId: nat): nat {
    Count(Listed(index, place), roomId)
  }

  function Count(ids: seq<nat>, roomId: nat): nat {
    multiset(ids)[roomId]
  }

  function Appended(index: Index, place: PlaceKey, roomId: nat): Index {
    index[place := Listed(index, place) + [roomId]]
  }

  /** removeAll on the place's entry, which is made if missing and stays when it becomes empty. */
  function Unlisted(index: Index, place: PlaceKey, roomId: nat): Index {
    index[place := DropAll(Listed(index, place), roomId)]
  }

  lemma AppendedTimes(index: Index, place: PlaceKey, roomId: nat, p: PlaceKey, r: nat)
    ensures Times(Appended(index, place, roomId), p, r)
            == Times(index, p, r) + if p == place && r == roomId then 1 else 0
  {
  }

  lemma UnlistedTimes(index: Index, place: PlaceKey, roomId: nat, p: PlaceKey, r: nat)
    ensures Times(Unlisted(index, place, roomId), p, r)
            == if p == place && r == roomId then 0 else Times(index, p, r)
  {
  }

  // ---------------------------------------------------------------------------------------------
  // The commands on values

  ghost function MemberNamed(members: Members, npid: string): (id: Option<nat>)
    ensures id.Some? <==> HasNpid(members, npid)
    ensures id.Some? ==> id.value in members && members[id.value].npid == npid
  {
    if HasNpid(members, npid) then
      var id :| id in members && members[id].npid == npid;
      Some(id)
    else None
  }

  /** The member the hash table lists first once `id` is gone: the hint, where it names one. */
  ghost function Heir(members: Members, id: nat, hint: nat): (heir: nat)
    ensures members.Keys != {id} && id in members ==> heir in members && heir != id
  {
    if hint in members && hint != id then hint
    else if other :| other in members && other != id then other
    else hint
  }

  function Put(s: Server, key: string, roomId: nat, room: RoomState): Server {
    s.(rooms := s.rooms[(key, roomId) := room])
  }

  /** A new room is listed under its world, or without a world under its lobby, or nowhere. */
  function Opened(s: Server, key: string, room: RoomState): Server {
    var id := s.nextRoomId;
    var placed :=
      if room.worldId != 0 then s.(worldRooms := Appended(s.worldRooms, (key, room.worldId), id))
      else if room.lobbyId != 0 then s.(lobbyRooms := Appended(s.lobbyRooms, (key, room.lobbyId), id))
      else s;
    Put(placed.(nextRoomId := id + 1), key, id, room)
  }

  function Dissolved(s: Server, key: string, roomId: nat, room: RoomState): Server {
    var without := s.(rooms := s.rooms - {(key, roomId)});
    if room.worldId != 0 then without.(worldRooms := Unlisted(s.worldRooms, (key, room.worldId), roomId))
    else if room.lobbyId != 0 then without.(lobbyRooms := Unlisted(s.lobbyRooms, (key, room.lobbyId), roomId))
    else without
  }

  ghost function Step(s: Server, c: Call): (Server, Reply) {
    if c.CreateRoom? then
      var room := Created(c.creation, c.creator);
      (Opened(s, c.key, room), Entered(s.nextRoomId, room.ownerMemberId))
    else if (c.key, c.roomId) !in s.rooms then (s, Refused(RoomMissing))
    else
      var room := s.rooms[(c.key, c.roomId)];
      match c
      case JoinRoom(key, roomId, joiner) => (
        match Join(room, joiner)
        case Done(next) => (Put(s, key, roomId, next), Entered(roomId, AllocId(room)))
        case Failed(error) => (s, Refused(error))
        case Gone => (s, Accepted))
      case LeaveRoom(key, roomId, npid, hint) => LeaveStep(s, key, roomId, MemberNamed(room.members, npid), hint)
      case KickoutRoomMember(key, roomId, npid, target, block) =>
        KickStep(s, key, roomId, MemberNamed(room.members, npid), target, block)
      case SetRoomDataInternal(key, roomId, filter, flags, mask) =>
        (Put(s, key, roomId, SetInternal(room, filter, flags, mask)), Accepted)
  }

  /** CmdLeaveRoom, and DoLeaveRoom when a connection ends. */
  ghost function LeaveStep(s: Server, key: string, roomId: nat, id: Option<nat>, hint: nat): (Server, Reply)
    requires (key, roomId) in s.rooms
    requires id.Some? ==> id.value in s.rooms[(key, roomId)].members
  {
    var room := s.rooms[(key, roomId)];
    if id.None? then (s, Refused(RoomMissing))
    else
      match Leave(room, id.value, Heir(room.members, id.value, hint))
      case Done(next) => (Put(s, key, roomId, next), Accepted)
      case _ => (Dissolved(s, key, roomId, room), Accepted)
  }

  function KickStep(s: Server, key: string, roomId: nat, kicker: Option<nat>, target: nat, block: bool): (Server, Reply)
    requires (key, roomId) in s.rooms
  {
    if kicker.None? then (s, Refused(RoomMissing))
    else
      match Kick(s.rooms[(key, roomId)], kicker.value, target, block)
      case Done(next) => (Put(s, key, roomId, next), Accepted)
      case Failed(error) => (s, Refused(error))
      case Gone => (s, Accepted)
  }

  ghost function After(s: Server, calls: seq<Call>): Server {
    if calls == [] then s else Step(After(s, calls[..|calls| - 1]), calls[|calls| - 1]).0
  }

  // ---------------------------------------------------------------------------------------------
  // Index coherence and sound rooms over every run

  /** A room stands under its world. */
  predicate InWorld(s: Server, place: PlaceKey, roomId: nat) {
    place.1 != 0 && (place.0, roomId) in s.rooms && s.rooms[(place.0, roomId)].worldId == place.1
  }

  /** A room without a world stands under its lobby. */
  predicate InLobby(s: Server, place: PlaceKey, roomId: nat) {
    && place.1 != 0 && (place.0, roomId) in s.rooms
    && s.rooms[(place.0, roomId)].worldId == 0 && s.rooms[(place.0, roomId)].lobbyId == place.1
  }

  /** Every room is listed exactly once where it stands, and nothing else is listed anywhere. */
  ghost predicate IndexOk(s: Server) {
    && (forall p: PlaceKey, r: nat :: Times(s.worldRooms, p, r) == if InWorld(s, p, r) then 1 else 0)
    && (forall p: PlaceKey, r: nat :: Times(s.lobbyRooms, p, r) == if InLobby(s, p, r) then 1 else 0)
  }

  ghost predicate IdsIssued(s: Server) {
    forall k :: k in s.rooms ==> k.1 < s.nextRoomId
  }

  ghost predicate Inv(s: Server) {
    IndexOk(s) && IdsIssued(s) && forall k :: k in s.rooms ==> RoomOk(s.rooms[k])
  }

  lemma OpenedKeepsInv(s: Server, key: string, room: RoomState)
    requires Inv(s) && RoomOk(room)
    ensures Inv(Opened(s, key, room))
  {
    hide RoomOk, Times, Appended;
    var next := Opened(s, key, room);
    forall p: PlaceKey, r: nat
      ensures Times(next.worldRooms, p, r) == if InWorld(next, p, r) then 1 else 0
      ensures Times(next.lobbyRooms, p, r) == if InLobby(next, p, r) then 1 else 0
    {
      AppendedTimes(s.worldRooms, (key, room.worldId), s.nextRoomId, p, r);
      AppendedTimes(s.lobbyRooms, (key, room.lobbyId), s.nextRoomId, p, r);
    }
  }

  lemma PutKeepsInv(s: Server, key: string, roomId: nat, room: RoomState)
    requires Inv(s) && RoomOk(room) && (key, roomId) in s.rooms
    requires room.worldId == s.rooms[(key, roomId)].worldId && room.lobbyId == s.rooms[(key, roomId)].lobbyId
    ensures Inv(Put(s, key, roomId, room))
  {
    hide RoomOk, Times;
    var next := Put(s, key, roomId, room);
    forall p: PlaceKey, r: nat
      ensures InWorld(next, p, r) == InWorld(s, p, r) && InLobby(next, p, r) == InLobby(s, p, r)
    {
    }
  }

  lemma DissolvedKeepsInv(s: Server, key: string, roomId: nat)
    requires Inv(s) && (key, roomId) in s.rooms
    ensures Inv(Dissolved(s, key, roomId, s.rooms[(key, roomId)]))
  {
    hide RoomOk, Times, Unlisted;
    var room := s.rooms[(key, roomId)];
    var next := Dissolved(s, key, roomId, room);
    forall p: PlaceKey, r: nat
      ensures Times(next.worldRooms, p, r) == if InWorld(next, p, r) then 1 else 0
      ensures Times(next.lobbyRooms, p, r) == if InLobby(next, p, r) then 1 else 0
    {
      UnlistedTimes(s.worldRooms, (key, room.worldId), roomId, p, r);
      UnlistedTimes(s.lobbyRooms, (key, room.lobbyId), roomId, p, r);
    }
  }

  /** Every command keeps the indices in step with the rooms and every room sound. */
  lemma StepKeepsInv(s: Server, c: Call)
    requires Inv(s)
    ensures Inv(Step(s, c).0)
  {
    hide IndexOk, IdsIssued, RoomOk, Created, Join, Leave, Kick, SetInternal, AllocId, Opened, Put, Dissolved;
    if c.CreateRoom? {
      CreatedOk(c.creation, c.creator);
      OpenedKeepsInv(s, c.key, Created(c.creation, c.creator));
    } else if (c.key, c.roomId) in s.rooms {
      RoomStepKeepsInv(s, c);
    }
  }

  lemma RoomStepKeepsInv(s: Server, c: Call)
    requires Inv(s) && !c.CreateRoom? && (c.key, c.roomId) in s.rooms
    ensures Inv(Step(s, c).0)
  {
    hide IndexOk, IdsIssued, RoomOk, Join, Leave, Kick, SetInternal, AllocId, Opened, Put, Dissolved;
    var room := s.rooms[(c.key, c.roomId)];
    RoomStays(room, c);
    match c
    case JoinRoom(key, roomId, joiner) =>
      if Join(room, joiner).Done? {
        JoinOk(room, joiner);
        PutKeepsInv(s, key, roomId, Join(room, joiner).room);
      }
    case LeaveRoom(key, roomId, npid, hint) =>
      var id := MemberNamed(room.members, npid);
      if id.Some? {
        var heir := Heir(room.members, id.value, hint);
        LeaveOk(room, id.value, heir);
        if Leave(room, id.value, heir).Done? {
          PutKeepsInv(s, key, roomId, Leave(room, id.value, heir).room);
        }
      }
      DissolvedKeepsInv(s, key, roomId);
    case KickoutRoomMember(key, roomId, npid, target, block) =>
      var kicker := MemberNamed(room.members, npid);
      if kicker.Some? && Kick(room, kicker.value, target, block).Done? {
        KickOk(room, kicker.value, target, block);
        PutKeepsInv(s, key, roomId, Kick(room, kicker.value, target, block).room);
      }
    case SetRoomDataInternal(key, roomId, filter, flags, mask) =>
      SetInternalOk(room, filter, flags, mask);
      PutKeepsInv(s, key, roomId, SetInternal(room, filter, flags, mask));
  }

  /** No command moves a room to another world or lobby. */
  lemma RoomStays(room: RoomState, c: Call)
    ensures c.JoinRoom? && Join(room, c.joiner).Done? ==>
              var next := Join(room, c.joiner).room;
              next.worldId == room.worldId && next.lobbyId == room.lobbyId
    ensures c.LeaveRoom? ==>
              forall id, heir | id in room.members && (room.members.Keys != {id} ==> heir in room.members && heir != id)
                                && Leave(room, id, heir).Done? ::
                var next := Leave(room, id, heir).room;
                next.worldId == room.worldId && next.lobbyId == room.lobbyId
    ensures c.KickoutRoomMember? ==>
              forall kicker | Kick(room, kicker, c.target, c.block).Done? ::
                var next := Kick(room, kicker, c.target, c.block).room;
                next.worldId == room.worldId && next.lobbyId == room.lobbyId
    ensures c.SetRoomDataInternal? ==>
              var next := SetInternal(room, c.flagFilter, c.flagAttr, c.mask);
              next.worldId == room.worldId && next.lobbyId == room.lobbyId
  {
    hide CountsOf, Or, And, AndNot, OneAt, Successor, DropAll, AllocId;
  }

  lemma {:induction false} RunKeepsInv(calls: seq<Call>)
    ensures Inv(After(NEW_SERVER, calls))
  {
    if calls != [] {
      RunKeepsInv(calls[..|calls| - 1]);
      StepKeepsInv(After(NEW_SERVER, calls[..|calls| - 1]), calls[|calls| - 1]);
    }
  }

  /** Every room of at most 64 slots that any run leads to: its members sit in distinct slots 1..maxSlot and
      bear distinct names, the joined mask has as many bits as there are members, the stored counters are the
      recomputed ones and add up, the owner is the one member with the owner bit, and FULL is set exactly on
      full rooms of two slots or more. */
  lemma ReachableRoom(calls: seq<Call>, key: string, roomId: nat)
    requires (key, roomId) in After(NEW_SERVER, calls).rooms
    requires After(NEW_SERVER, calls).rooms[(key, roomId)].maxSlot <= 64
    ensures var room := After(NEW_SERVER, calls).rooms[(key, roomId)];
      var c := room.counts;
      && 1 <= |room.members| <= room.maxSlot
      && SlotsOk(room.members, room.maxSlot) && DistinctNpids(room.members)
      && |JoinedBits(room.members)| == |room.members|
      && c == CountsOf(room)
      && c.publicSlots + c.privateSlots == room.maxSlot
      && c.openPublicSlots + c.openPrivateSlots == room.maxSlot - |room.members|
      && OwnerOk(room) && FlagOk(room)
  {
    hide IndexOk, SlotsOk, DistinctNpids, JoinedBits, CountsOf, OwnerOk, FlagOk, After;
    RunKeepsInv(calls);
    var room := After(NEW_SERVER, calls).rooms[(key, roomId)];
    JoinedCount(room.members, room.maxSlot);
    SeatsAsManyAsMembers(room.members, room.maxSlot);
    CountersConserve(room);
  }

  // ---------------------------------------------------------------------------------------------
  // Who comes, goes and owns

  predicate IsMember(s: Server, key: string, roomId: nat, npid: string) {
    (key, roomId) in s.rooms && HasNpid(s.rooms[(key, roomId)].members, npid)
  }

  /** The call has the room's owner put `npid` out. */
  predicate IsKickOf(s: Server, c: Call, key: string, roomId: nat, npid: string) {
    && c.KickoutRoomMember? && c.key == key && c.roomId == roomId && (key, roomId) in s.rooms
    && var room := s.rooms[(key, roomId)];
    && c.target in room.members && room.members[c.target].npid == npid
    && room.ownerMemberId in room.members && room.members[room.ownerMemberId].npid == c.npid
  }

  /** A join adds its joiner and drops nobody (past 64 slots it may drop a member of slot 65). */
  lemma JoinMoves(room: RoomState, joiner: Member, npid: string)
    requires RoomOk(room) && Join(room, joiner).Done?
    ensures var next := Join(room, joiner).room;
      && (HasNpid(next.members, npid) ==> HasNpid(room.members, npid) || npid == joiner.npid)
      && (HasNpid(room.members, npid) && room.maxSlot <= 64 ==> HasNpid(next.members, npid))
      && HasNpid(next.members, joiner.npid)
      && next.blockedUsers == room.blockedUsers && joiner.npid !in room.blockedUsers
  {
    hide AllocId, Or, OneAt, CountsOf, Join, SlotOf, FlagOk, OwnerOk, Keyed;
    JoinShape(room, joiner);
    var id := AllocId(room);
    var next := Join(room, joiner).room;
    assert next.members[id].npid == joiner.npid;
    if HasNpid(room.members, npid) && room.maxSlot <= 64 {
      JoinKeepsSlots(room, joiner);
      var x :| x in room.members && room.members[x].npid == npid;
      assert next.members[x].npid == npid;
    }
  }

  /** A leaving drops the one who leaves and nobody else. */
  lemma LeaveMoves(room: RoomState, id: nat, heir: nat, npid: string)
    requires RoomOk(room) && id in room.members
    requires room.members.Keys != {id} ==> heir in room.members && heir != id
    requires Leave(room, id, heir).Done?
    ensures HasNpid(Leave(room, id, heir).room.members, npid) <==>
            HasNpid(room.members, npid) && npid != room.members[id].npid
    ensures Leave(room, id, heir).room.blockedUsers == room.blockedUsers
  {
    hide Leave, CountsOf, SlotOf, FlagOk, OwnerOk, Keyed, RoomExact;
    LeaveEffect(room, id, heir);
    var next := Leave(room, id, heir).room;
    if HasNpid(room.members, npid) && npid != room.members[id].npid {
      var x :| x in room.members && room.members[x].npid == npid;
      assert next.members[x].npid == npid;
    }
  }

  /** A kick drops its target and nobody else. */
  lemma KickMoves(room: RoomState, kicker: nat, target: nat, block: bool, npid: string)
    requires RoomOk(room) && kicker in room.members && Kick(room, kicker, target, block).Done?
    ensures target in room.members && kicker == room.ownerMemberId
    ensures HasNpid(Kick(room, kicker, target, block).room.members, npid) <==>
            HasNpid(room.members, npid) && npid != room.members[target].npid
  {
    hide CountsOf, SlotOf, FlagOk, OwnerOk, Keyed, RoomExact, AndNot, OneAt, DropAll;
    KickOk(room, kicker, target, block);
    var next := Kick(room, kicker, target, block).room;
    if HasNpid(room.members, npid) && npid != room.members[target].npid {
      var x :| x in room.members && room.members[x].npid == npid;
      assert next.members[x].npid == npid;
    }
  }

  /** The room that a call names, after it. */
  ghost function RoomAfter(s: Server, c: Call): Option<RoomState>
    requires !c.CreateRoom?
  {
    var next := Step(s, c).0;
    if (c.key, c.roomId) in next.rooms then Some(next.rooms[(c.key, c.roomId)]) else None
  }

  /** Nobody enters a room but by their own join, nobody is out of it but by their own leaving or the
      owner's kick, and a room ends only with its last member. */
  lemma MembershipMoves(s: Server, c: Call, npid: string)
    requires Inv(s) && !c.CreateRoom? && (c.key, c.roomId) in s.rooms
    ensures var before := IsMember(s, c.key, c.roomId, npid);
      var now := IsMember(Step(s, c).0, c.key, c.roomId, npid);
      && (!before && now ==> c.JoinRoom? && c.joiner.npid == npid)
      && (before && !now && s.rooms[(c.key, c.roomId)].maxSlot <= 64 ==>
            (c.LeaveRoom? && c.npid == npid) || IsKickOf(s, c, c.key, c.roomId, npid))
      && (RoomAfter(s, c).None? ==>
            c.LeaveRoom? && IsMember(s, c.key, c.roomId, c.npid) && (before ==> c.npid == npid))
  {
    hide IndexOk, RoomOk, Join, Leave, Kick, SetInternal, AllocId, Created;
    var room := s.rooms[(c.key, c.roomId)];
    match c
    case JoinRoom(key, roomId, joiner) =>
      if Join(room, joiner).Done? {
        JoinMoves(room, joiner, npid);
      }
    case LeaveRoom(key, roomId, who, hint) =>
      var id := MemberNamed(room.members, who);
      if id.Some? {
        var heir := Heir(room.members, id.value, hint);
        LeaveOk(room, id.value, heir);
        if Leave(room, id.value, heir).Done? {
          LeaveMoves(room, id.value, heir, npid);
        }
      }
    case KickoutRoomMember(key, roomId, who, target, block) =>
      var kicker := MemberNamed(room.members, who);
      if kicker.Some? && Kick(room, kicker.value, target, block).Done? {
        KickMoves(room, kicker.value, target, block, npid);
      }
    case SetRoomDataInternal(key, roomId, filter, flags, mask) =>
      SetInternalKeepsMembers(room, filter, flags, mask);
  }

  lemma SetInternalKeepsMembers(room: RoomState, filter: nat, flags: nat, mask: Option<Mask>)
    ensures var next := SetInternal(room, filter, flags, mask);
      next.members == room.members && next.blockedUsers == room.blockedUsers
      && next.ownerMemberId == room.ownerMemberId
  {
    hide Or, And, AndNot, OneAt, CountsOf;
  }

  /** A room passes to another owner only when its owner leaves, and then to a member that stays. */
  lemma OwnerChangesByLeavingOnly(s: Server, c: Call)
    requires Inv(s) && !c.CreateRoom? && (c.key, c.roomId) in s.rooms && RoomAfter(s, c).Some?
    requires RoomAfter(s, c).value.ownerMemberId != s.rooms[(c.key, c.roomId)].ownerMemberId
    ensures var room := s.rooms[(c.key, c.roomId)];
      && c.LeaveRoom? && room.ownerMemberId in room.members && room.members[room.ownerMemberId].npid == c.npid
      && RoomAfter(s, c).value.ownerMemberId in room.members.Keys - {room.ownerMemberId}
  {
    hide IndexOk, RoomOk, Join, Leave, Kick, SetInternal, AllocId, Created;
    var room := s.rooms[(c.key, c.roomId)];
    match c
    case JoinRoom(key, roomId, joiner) =>
      if Join(room, joiner).Done? {
        JoinShape(room, joiner);
      }
    case LeaveRoom(key, roomId, who, hint) =>
      var id := MemberNamed(room.members, who);
      if id.Some? {
        var heir := Heir(room.members, id.value, hint);
        LeaveOk(room, id.value, heir);
        if Leave(room, id.value, heir).Done? {
          LeaveEffect(room, id.value, heir);
        }
      }
    case KickoutRoomMember(key, roomId, who, target, block) =>
      var kicker := MemberNamed(room.members, who);
      if kicker.Some? && Kick(room, kicker.value, target, block).Done? {
        KickOk(room, kicker.value, target, block);
      }
    case SetRoomDataInternal(key, roomId, filter, flags, mask) =>
      SetInternalKeepsMembers(room, filter, flags, mask);
  }

  // ---------------------------------------------------------------------------------------------
  // A banned player stays out

  /** While the room lasts it lists the player as blocked and not as a member; once gone it stays gone. */
  ghost predicate Barred(s: Server, key: string, roomId: nat, npid: string) {
    && roomId < s.nextRoomId
    && ((key, roomId) in s.rooms ==>
          npid in s.rooms[(key, roomId)].blockedUsers && !HasNpid(s.rooms[(key, roomId)].members, npid))
  }

  lemma KickBars(s: Server, c: Call)
    requires Inv(s) && c.KickoutRoomMember? && c.block && Step(s, c).1 == Accepted
    ensures (c.key, c.roomId) in s.rooms && c.target in s.rooms[(c.key, c.roomId)].members
    ensures Barred(Step(s, c).0, c.key, c.roomId, s.rooms[(c.key, c.roomId)].members[c.target].npid)
  {
    hide IndexOk, RoomOk, Kick;
    var room := s.rooms[(c.key, c.roomId)];
    var kicker := MemberNamed(room.members, c.npid);
    KickNeverGone(room, kicker.value, c.target, true);
    KickOk(room, kicker.value, c.target, true);
    KickMoves(room, kicker.value, c.target, true, room.members[c.target].npid);
  }

  lemma KickNeverGone(room: RoomState, kicker: nat, target: nat, block: bool)
    ensures Kick(room, kicker, target, block) != Gone
    ensures Kick(room, kicker, target, block).Done? ==> target in room.members
  {
    hide CountsOf, AndNot, OneAt, DropAll;
  }

  /** The room that remains under a key keeps the player listed as blocked and out. */
  ghost predicate KeepsOut(room: RoomState, npid: string) {
    npid in room.blockedUsers && !HasNpid(room.members, npid)
  }

  lemma JoinKeepsOut(room: RoomState, joiner: Member, npid: string)
    requires RoomOk(room) && KeepsOut(room, npid) && Join(room, joiner).Done?
    ensures KeepsOut(Join(room, joiner).room, npid)
  {
    hide RoomOk, Join;
    JoinMoves(room, joiner, npid);
  }

  lemma LeaveKeepsOut(room: RoomState, id: nat, heir: nat, npid: string)
    requires RoomOk(room) && KeepsOut(room, npid) && id in room.members
    requires room.members.Keys != {id} ==> heir in room.members && heir != id
    requires Leave(room, id, heir).Done?
    ensures KeepsOut(Leave(room, id, heir).room, npid)
  {
    hide RoomOk, Leave;
    LeaveMoves(room, id, heir, npid);
  }

  lemma KickKeepsOut(room: RoomState, kicker: nat, target: nat, block: bool, npid: string)
    requires RoomOk(room) && KeepsOut(room, npid) && kicker in room.members && Kick(room, kicker, target, block).Done?
    ensures KeepsOut(Kick(room, kicker, target, block).room, npid)
  {
    hide RoomOk, Kick;
    KickOk(room, kicker, target, block);
    KickMoves(room, kicker, target, block, npid);
  }

  lemma SetKeepsOut(room: RoomState, filter: nat, flags: nat, mask: Option<Mask>, npid: string)
    requires KeepsOut(room, npid)
    ensures KeepsOut(SetInternal(room, filter, flags, mask), npid)
  {
    hide SetInternal;
    SetInternalKeepsMembers(room, filter, flags, mask);
  }

  lemma RoomStepKeepsOut(s: Server, c: Call, npid: string)
    requires Inv(s) && !c.CreateRoom? && (c.key, c.roomId) in s.rooms && KeepsOut(s.rooms[(c.key, c.roomId)], npid)
    ensures RoomAfter(s, c).Some? ==> KeepsOut(RoomAfter(s, c).value, npid)
  {
    hide IndexOk, RoomOk, Join, Leave, Kick, SetInternal, AllocId, Created, KeepsOut;
    var room := s.rooms[(c.key, c.roomId)];
    match c
    case JoinRoom(_, _, joiner) =>
      if Join(room, joiner).Done? {
        JoinKeepsOut(room, joiner, npid);
      }
    case LeaveRoom(_, _, who, hint) =>
      var id := MemberNamed(room.members, who);
      if id.Some? && Leave(room, id.value, Heir(room.members, id.value, hint)).Done? {
        LeaveKeepsOut(room, id.value, Heir(room.members, id.value, hint), npid);
      }
    case KickoutRoomMember(_, _, who, target, block) =>
      var kicker := MemberNamed(room.members, who);
      if kicker.Some? && Kick(room, kicker.value, target, block).Done? {
        KickKeepsOut(room, kicker.value, target, block, npid);
      }
    case SetRoomDataInternal(_, _, filter, flags, mask) =>
      SetKeepsOut(room, filter, flags, mask, npid);
  }

  /** A call changes at most the room it names, and a creation opens a room not there before. */
  lemma OtherRoomsStay(s: Server, c: Call, key: string, roomId: nat)
    requires IdsIssued(s) && roomId < s.nextRoomId
    requires c.CreateRoom? || (c.key, c.roomId) != (key, roomId) || (key, roomId) !in s.rooms
    ensures var next := Step(s, c).0;
      && s.nextRoomId <= next.nextRoomId
      && ((key, roomId) in next.rooms <==> (key, roomId) in s.rooms)
      && ((key, roomId) in s.rooms ==> next.rooms[(key, roomId)] == s.rooms[(key, roomId)])
  {
    hide RoomOk, Join, Leave, Kick, SetInternal, AllocId, Created;
  }

  lemma IdsNeverFall(s: Server, c: Call)
    ensures s.nextRoomId <= Step(s, c).0.nextRoomId
  {
    hide Join, Leave, Kick, SetInternal, AllocId, Created;
  }

  lemma StepKeepsBarred(s: Server, c: Call, key: string, roomId: nat, npid: string)
    requires Inv(s) && Barred(s, key, roomId, npid)
    ensures Barred(Step(s, c).0, key, roomId, npid)
  {
    hide IndexOk, RoomOk, Step, HasNpid;
    IdsNeverFall(s, c);
    if !c.CreateRoom? && (c.key, c.roomId) == (key, roomId) && (key, roomId) in s.rooms {
      RoomStepKeepsOut(s, c, npid);
    } else {
      OtherRoomsStay(s, c, key, roomId);
    }
  }

  /** Kicked out and blocked, a player is never a member of that room again, whatever calls follow. */
  lemma {:induction false} BannedStaysOut(s: Server, c: Call, calls: seq<Call>)
    requires Inv(s) && c.KickoutRoomMember? && c.block && Step(s, c).1 == Accepted
    ensures (c.key, c.roomId) in s.rooms && c.target in s.rooms[(c.key, c.roomId)].members
    ensures Inv(After(Step(s, c).0, calls))
    ensures Barred(After(Step(s, c).0, calls), c.key, c.roomId, s.rooms[(c.key, c.roomId)].members[c.target].npid)
    decreases |calls|
  {
    hide Inv, Barred, Step;
    KickBars(s, c);
    if calls == [] {
      StepKeepsInv(s, c);
    } else {
      var earlier, last := calls[..|calls| - 1], calls[|calls| - 1];
      BannedStaysOut(s, c, earlier);
      StepKeepsInv(After(Step(s, c).0, earlier), last);
      var npid := s.rooms[(c.key, c.roomId)].members[c.target].npid;
      StepKeepsBarred(After(Step(s, c).0, earlier), last, c.key, c.roomId, npid);
    }
  }

  // ---------------------------------------------------------------------------------------------
  // What the indices tell

  /** The rooms that stand in a world. */
  function RoomsAt(s: Server, key: string, worldId: nat): set<nat> {
    set k | k in s.rooms && k.0 == key && k.1 >= 0 && worldId != 0 && s.rooms[k].worldId == worldId :: k.1
  }

  function Population(s: Server, key: string, roomId: nat): nat {
    if (key, roomId) in s.rooms then |s.rooms[(key, roomId)].members| else 0
  }

  /** The members of a set of rooms, all together. */
  ghost function MembersIn(s: Server, key: string, roomIds: set<nat>): nat {
    if roomIds == {} then 0
    else
      var r :| r in roomIds;
      Population(s, key, r) + MembersIn(s, key, roomIds - {r})
  }

  /** The order in which rooms are added up does not matter. */
  lemma {:induction false} MembersInTake(s: Server, key: string, roomIds: set<nat>, r: nat)
    requires r in roomIds
    ensures MembersIn(s, key, roomIds) == Population(s, key, r) + MembersIn(s, key, roomIds - {r})
    decreases roomIds
  {
    var x :| x in roomIds && MembersIn(s, key, roomIds) == Population(s, key, x) + MembersIn(s, key, roomIds - {x});
    if x != r {
      MembersInTake(s, key, roomIds - {x}, r);
      MembersInTake(s, key, roomIds - {r}, x);
      assert roomIds - {x} - {r} == roomIds - {r} - {x};
    }
  }

  ghost predicate Distinct(ids: seq<nat>) {
    forall i, j :: 0 <= i < j < |ids| ==> ids[i] != ids[j]
  }

  lemma TwiceCountsTwo(ids: seq<nat>, i: nat, j: nat)
    requires i < j < |ids| && ids[i] == ids[j]
    ensures Count(ids, ids[i]) >= 2
  {
    var x := ids[i];
    assert ids == ids[..j] + ids[j..];
    assert ids[..j][i] == x && ids[j..][0] == x;
    assert multiset(ids) == multiset(ids[..j]) + multiset(ids[j..]);
  }

  lemma DistinctWhenOnce(ids: seq<nat>)
    requires forall x :: Count(ids, x) <= 1
    ensures Distinct(ids)
  {
    forall i, j | 0 <= i < j < |ids|
      ensures ids[i] != ids[j]
    {
      if ids[i] == ids[j] {
        TwiceCountsTwo(ids, i, j);
        assert false;
      }
    }
  }

  function Elements(ids: seq<nat>): set<nat> {
    set x | x in ids
  }

  lemma OneMoreElement(ids: seq<nat>, i: nat)
    requires Distinct(ids) && i < |ids|
    ensures ids[i] !in Elements(ids[..i])
    ensures Elements(ids[..i + 1]) == Elements(ids[..i]) + {ids[i]}
    ensures |Elements(ids[..i + 1])| == |Elements(ids[..i])| + 1
  {
    assert ids[..i + 1] == ids[..i] + [ids[i]];
  }

  /** A world's list holds each of its rooms once and nothing else: no entry is stale. */
  lemma ListedIsWorld(s: Server, key: string, worldId: nat)
    requires IndexOk(s)
    ensures var ids := Listed(s.worldRooms, (key, worldId));
      && Distinct(ids) && Elements(ids) == RoomsAt(s, key, worldId)
      && forall x :: x in ids ==> (key, x) in s.rooms
  {
    var p := (key, worldId);
    var ids := Listed(s.worldRooms, p);
    forall x: nat
      ensures Count(ids, x) <= 1 && (x in ids <==> InWorld(s, p, x))
    {
      assert Times(s.worldRooms, p, x) == if InWorld(s, p, x) then 1 else 0;
      assert x in ids <==> x in multiset(ids);
    }
    DistinctWhenOnce(ids);
    forall x: nat | InWorld(s, p, x)
      ensures x in RoomsAt(s, key, worldId)
    {
      assert (key, x) in s.rooms;
    }
  }

  lemma ListedIsLobby(s: Server, key: string, lobbyId: nat)
    requires IndexOk(s)
    ensures var ids := Listed(s.lobbyRooms, (key, lobbyId));
      && Distinct(ids) && forall x :: x in ids <==> InLobby(s, (key, lobbyId), x)
  {
    var p := (key, lobbyId);
    var ids := Listed(s.lobbyRooms, p);
    forall x: nat
      ensures Count(ids, x) <= 1 && (x in ids <==> InLobby(s, p, x))
    {
      assert Times(s.lobbyRooms, p, x) == if InLobby(s, p, x) then 1 else 0;
      assert x in ids <==> x in multiset(ids);
    }
    DistinctWhenOnce(ids);
  }

  datatype World = World(worldId: nat, roomsNum: nat, roomMembersNum: nat)

  datatype WorldConfig = WorldConfig(worldId: nat, serverId: nat)

  /** What a world's row should say. */
  ghost function Told(s: Server, key: string, worldId: nat): World {
    World(worldId, |RoomsAt(s, key, worldId)|, MembersIn(s, key, RoomsAt(s, key, worldId)))
  }

  /** The configured worlds of a server, or of all servers. */
  function WorldsOf(configs: seq<WorldConfig>, serverId: nat): seq<nat> {
    if configs == [] then []
    else
      var last := configs[|configs| - 1];
      WorldsOf(configs[..|configs| - 1], serverId)
        + if serverId != 0 && last.serverId != serverId then [] else [last.worldId]
  }

  /** Where a search looks: in a world, else in a lobby, else everywhere. */
  predicate Sought(s: Server, key: string, worldId: nat, lobbyId: nat, roomId: nat) {
    if worldId != 0 then InWorld(s, (key, worldId), roomId)
    else if lobbyId != 0 then InLobby(s, (key, lobbyId), roomId)
    else (key, roomId) in s.rooms
  }

  /** At most 20 entries from a place counted from one. */
  function Page(matches: seq<nat>, rangeStart: nat, rangeMax: nat): seq<nat> {
    var first := Min(Max(rangeStart, 1) - 1, |matches|);
    var most := if rangeMax == 0 || rangeMax > 20 then 20 else rangeMax;
    matches[first..Min(first + most, |matches|)]
  }

  lemma CreateStep(s: Server, key: string, creation: Creation, creator: Member)
    requires Inv(s)
    ensures (key, s.nextRoomId) !in s.rooms
    ensures var room := Created(creation, creator);
      Step(s, CreateRoom(key, creation, creator)) == (Opened(s, key, room), Entered(s.nextRoomId, room.ownerMemberId))
  {
    hide Created, Opened;
  }

  // ---------------------------------------------------------------------------------------------
  // The shared state

  class MatchingState {
    var rooms: map<RoomKey, Room>
    var worldRooms: Index
    var lobbyRooms: Index
    var nextRoomId: nat

    ghost function View(): Server
      reads this, rooms.Values
    {
      Server(map k | k in rooms :: rooms[k].State(), worldRooms, lobbyRooms, nextRoomId)
    }

    /** No two entries share a room object. */
    ghost predicate Separate()
      reads this
    {
      forall a, b :: a in rooms && b in rooms && a != b ==> rooms[a] != rooms[b]
    }

    ghost predicate Valid()
      reads this, rooms.Values
    {
      Separate() && Inv(View())
    }

    constructor ()
      ensures Valid() && View() == NEW_SERVER
    {
      rooms, worldRooms, lobbyRooms, nextRoomId := map[], map[], map[], 1;
      new;
      RunKeepsInv([]);
      assert View() == NEW_SERVER;
    }

    /** CmdCreateRoom. */
    method Create(key: string, creation: Creation, creator: Member) returns (r: Reply)
      requires Valid()
      modifies this
      ensures Valid() && fresh(rooms.Values - old(rooms.Values))
      ensures (View(), r) == Step(old(View()), CreateRoom(key, creation, creator))
    {
      hide Inv, Created, Step, Opened, Room.State;
      StepKeepsInv(View(), CreateRoom(key, creation, creator));
      CreateStep(View(), key, creation, creator);
      var room := new Room(creation, creator);
      room.Shown();
      r := Entered(nextRoomId, room.ownerMemberId);
      Enter(key, room);
    }

    /** The new room goes into the table and the index of its place. */
    method Enter(key: string, room: Room)
      requires Separate() && room !in rooms.Values && (key, nextRoomId) !in rooms
      modifies this
      ensures Separate() && rooms == old(rooms)[(key, old(nextRoomId)) := room]
      ensures View() == Opened(old(View()), key, room.State())
    {
      hide Appended, Room.State;
      room.Shown();
      var id := nextRoomId;
      nextRoomId := nextRoomId + 1;
      if room.worldId != 0 {
        worldRooms := Appended(worldRooms, (key, room.worldId), id);
      } else if room.lobbyId != 0 {
        lobbyRooms := Appended(lobbyRooms, (key, room.lobbyId), id);
      }
      rooms := rooms[(key, id) := room];
      assert View().rooms == old(View()).rooms[(key, id) := room.State()];
    }

    /** CmdJoinRoom. */
    method Join(key: string, roomId: nat, joiner: Member) returns (r: Reply)
      requires Valid()
      modifies this, rooms.Values
      ensures Valid() && rooms == old(rooms)
      ensures (View(), r) == Step(old(View()), JoinRoom(key, roomId, joiner))
    {
      hide Inv, Step, Room.State, AllocId, Rooms.Join;
      ghost var s := View();
      StepKeepsInv(s, JoinRoom(key, roomId, joiner));
      JoinStep(s, key, roomId, joiner);
      if (key, roomId) !in rooms {
        return Refused(RoomMissing);
      }
      var room := rooms[(key, roomId)];
      var refused, id := room.Admit(joiner);
      assert View() == Put(s, key, roomId, rooms[(key, roomId)].State());
      if refused.Some? {
        PutSame(s, key, roomId);
        return Refused(refused.value);
      }
      r := Entered(roomId, id);
    }

    /** CmdLeaveRoom and DoLeaveRoom. */
    method Leave(key: string, roomId: nat, npid: string) returns (r: Reply, ghost hint: nat)
      requires Valid()
      modifies this, rooms.Values
      ensures Valid() && rooms.Values <= old(rooms).Values
      ensures (View(), r) == Step(old(View()), LeaveRoom(key, roomId, npid, hint))
    {
      hide Inv, Step, Rooms.Leave, Room.State, Dissolved;
      hint := 0;
      ghost var s := View();
      LeaveMissing(s, key, roomId, npid);
      if (key, roomId) !in rooms {
        return Refused(RoomMissing), hint;
      }
      var room := rooms[(key, roomId)];
      room.Shown();
      var me := room.FindByNpid(npid);
      NamedIs(s, key, roomId, npid, me);
      if me.None? {
        return Refused(RoomMissing), hint;
      }
      var emptied: bool;
      emptied, hint := room.Depart(me.value);
      LeaveEnds(s, key, roomId, npid, me.value, hint);
      StepKeepsInv(s, LeaveRoom(key, roomId, npid, hint));
      room.Shown();
      assert View() == Put(s, key, roomId, room.State());
      if emptied {
        DissolvedSame(s, key, roomId, room.State());
        Drop(key, roomId);
      }
      r := Accepted;
    }

    /** The room's entries go, in the table and in the index of its place. */
    method Drop(key: string, roomId: nat)
      requires Separate() && (key, roomId) in rooms
      modifies this
      ensures Separate() && rooms == old(rooms) - {(key, roomId)}
      ensures View() == Dissolved(old(View()), key, roomId, old(rooms[(key, roomId)].State()))
    {
      hide Unlisted, Room.State;
      var room := rooms[(key, roomId)];
      room.Shown();
      if room.worldId != 0 {
        worldRooms := Unlisted(worldRooms, (key, room.worldId), roomId);
      } else if room.lobbyId != 0 {
        lobbyRooms := Unlisted(lobbyRooms, (key, room.lobbyId), roomId);
      }
      rooms := rooms - {(key, roomId)};
      assert View().rooms == old(View()).rooms - {(key, roomId)};
    }

    /** CmdKickoutRoomMember. */
    method Kickout(key: string, roomId: nat, npid: string, target: nat, block: bool) returns (r: Reply)
      requires Valid()
      modifies this, rooms.Values
      ensures Valid() && rooms == old(rooms)
      ensures (View(), r) == Step(old(View()), KickoutRoomMember(key, roomId, npid, target, block))
    {
      hide Inv, Step, Kick, Room.State, Ended;
      ghost var s := View();
      StepKeepsInv(s, KickoutRoomMember(key, roomId, npid, target, block));
      KickMissing(s, key, roomId, npid, target, block);
      if (key, roomId) !in rooms {
        return Refused(RoomMissing);
      }
      var room := rooms[(key, roomId)];
      room.Shown();
      var initiator := room.FindByNpid(npid);
      NamedIs(s, key, roomId, npid, initiator);
      if initiator.None? {
        return Refused(RoomMissing);
      }
      var refused := room.Kickout(initiator.value, target, block);
      assert View() == Put(s, key, roomId, room.State());
      KickEnds(s, key, roomId, npid, target, block, refused, room.State());
      if refused.Some? {
        return Refused(refused.value);
      }
      r := Accepted;
    }

    /** CmdSetRoomDataInternal. */
    method SetData(key: string, roomId: nat, flagFilter: nat, flags: nat, mask: Option<Mask>) returns (r: Reply)
      requires Valid()
      modifies this, rooms.Values
      ensures Valid() && rooms == old(rooms)
      ensures (View(), r) == Step(old(View()), SetRoomDataInternal(key, roomId, flagFilter, flags, mask))
    {
      hide Inv, SetInternal, Room.State;
      ghost var s := View();
      StepKeepsInv(s, SetRoomDataInternal(key, roomId, flagFilter, flags, mask));
      if (key, roomId) !in rooms {
        return Refused(RoomMissing);
      }
      rooms[(key, roomId)].SetData(flagFilter, flags, mask);
      assert View() == Put(s, key, roomId, rooms[(key, roomId)].State());
      r := Accepted;
    }

    /** The rooms of a world and their members, counted along its list. */
    method CountRoomsAndMembers(key: string, worldId: nat) returns (row: World)
      requires Valid()
      ensures row == Told(View(), key, worldId)
    {
      hide Inv, Room.State, Elements, Distinct, RoomsAt, MembersIn;
      ghost var s := View();
      var ids := Listed(worldRooms, (key, worldId));
      InvListsWorld(s, key, worldId);
      NothingListed(s, key, ids);
      var roomsNum, roomMembersNum := 0, 0;
      for i := 0 to |ids|
        invariant roomsNum == |Elements(ids[..i])|
        invariant roomMembersNum == MembersIn(s, key, Elements(ids[..i]))
      {
        CountOneMore(s, key, ids, i);
        if (key, ids[i]) in rooms {
          rooms[(key, ids[i])].Shown();
          roomsNum := roomsNum + 1;
          roomMembersNum := roomMembersNum + |rooms[(key, ids[i])].members|;
        }
      }
      assert ids[..|ids|] == ids;
      assert Elements(ids) == RoomsAt(s, key, worldId);
      row := World(worldId, roomsNum, roomMembersNum);
    }

    method WorldRows(key: string, worldIds: seq<nat>) returns (rows: seq<World>)
      requires Valid()
      ensures |rows| == |worldIds|
      ensures forall i :: 0 <= i < |rows| ==> rows[i] == Told(View(), key, worldIds[i])
    {
      hide Told, Inv;
      rows := [];
      for i := 0 to |worldIds|
        invariant |rows| == i
        invariant forall j :: 0 <= j < i ==> rows[j] == Told(View(), key, worldIds[j])
      {
        var row := CountRoomsAndMembers(key, worldIds[i]);
        rows := rows + [row];
      }
    }

    /** CmdGetWorldInfoList: the configured worlds of the server; with none configured, every world that
        has ever had a room, or world 1. Every row tells the truth. */
    method WorldInfoList(key: string, serverId: nat, configs: seq<WorldConfig>) returns (rows: seq<World>)
      requires Valid()
      ensures forall row :: row in rows ==> row == Told(View(), key, row.worldId)
      ensures configs != [] ==>
                |rows| == |WorldsOf(configs, serverId)|
                && forall i :: 0 <= i < |rows| ==> rows[i].worldId == WorldsOf(configs, serverId)[i]
      ensures configs == [] ==>
                && (forall i, j :: 0 <= i < j < |rows| ==> rows[i].worldId != rows[j].worldId)
                && (forall w :: RoomsAt(View(), key, w) != {} ==> exists i :: 0 <= i < |rows| && rows[i].worldId == w)
                && rows != []
    {
      hide Inv, MembersIn, RoomsAt;
      var worldIds: seq<nat> := [];
      if configs != [] {
        for i := 0 to |configs|
          invariant worldIds == WorldsOf(configs[..i], serverId)
        {
          assert configs[..i + 1][..i] == configs[..i];
          if serverId == 0 || configs[i].serverId == serverId {
            worldIds := worldIds + [configs[i].worldId];
          }
        }
        assert configs[..|configs|] == configs;
      } else {
        worldIds := KnownWorlds(key);
        forall w | RoomsAt(View(), key, w) != {}
          ensures w in worldIds
        {
          RoomsAreListed(View(), key, w);
        }
        if worldIds == [] {
          worldIds := [1];
        }
      }
      rows := WorldRows(key, worldIds);
    }

    /** The worlds that the index has an entry for under the key, each once. */
    method KnownWorlds(key: string) returns (worldIds: seq<nat>)
      ensures Distinct(worldIds)
      ensures forall w :: w in worldIds <==> (key, w) in worldRooms
    {
      worldIds := [];
      var rest := worldRooms.Keys;
      while rest != {}
        invariant rest <= worldRooms.Keys
        invariant Distinct(worldIds)
        invariant forall w :: w in worldIds <==> (key, w) in worldRooms && (key, w) !in rest
      {
        var place :| place in rest;
        if place.0 == key && place.1 !in worldIds {
          worldIds := worldIds + [place.1];
        }
        rest := rest - {place};
      }
    }

    /** The ids a search goes through: the world's list, else the lobby's, else all the key's rooms. */
    method Candidates(key: string, worldId: nat, lobbyId: nat) returns (ids: seq<nat>)
      requires Valid()
      ensures Distinct(ids) && forall x :: x in ids <==> Sought(View(), key, worldId, lobbyId, x)
    {
      hide Room.State, RoomOk, Times;
      if worldId != 0 {
        ids := Listed(worldRooms, (key, worldId));
        InvListsWorld(View(), key, worldId);
        WorldIsSought(View(), key, worldId);
      } else if lobbyId != 0 {
        ids := Listed(lobbyRooms, (key, lobbyId));
        ListedIsLobby(View(), key, lobbyId);
      } else {
        ids := [];
        var rest := rooms.Keys;
        while rest != {}
          invariant rest <= rooms.Keys
          invariant Distinct(ids)
          invariant forall x :: x in ids <==> (key, x) in rooms && (key, x) !in rest
        {
          var k :| k in rest;
          if k.0 == key {
            ids := ids + [k.1];
          }
          rest := rest - {k};
        }
      }
    }

    /** CmdSearchRoom: exactly the sought rooms that pass the filters, each once; of these the page asked
        for, 20 at most. The branch for a candidate missing from the room table is never taken. */
    method SearchRoom(key: string, worldId: nat, lobbyId: nat, passing: set<RoomKey>, rangeStart: nat, rangeMax: nat)
      returns (matches: seq<nat>, page: seq<nat>)
      requires Valid()
      ensures Distinct(matches)
      ensures forall x :: x in matches <==> Sought(View(), key, worldId, lobbyId, x) && (key, x) in passing
      ensures page == Page(matches, rangeStart, rangeMax)
    {
      hide Room.State, Inv;
      var candidates := Candidates(key, worldId, lobbyId);
      SoughtIsThere(View(), key, worldId, lobbyId);
      matches, page := [], [];
      for i := 0 to |candidates|
        invariant Distinct(matches)
        invariant forall x :: x in matches <==> x in candidates[..i] && (key, x) in passing
      {
        if (key, candidates[i]) !in rooms {
          assert false; // no candidate is stale
        } else if (key, candidates[i]) in passing {
          matches := matches + [candidates[i]];
        }
      }
      assert candidates[..|candidates|] == candidates;
      var start := if rangeStart < 1 then 1 else rangeStart;
      var most := if rangeMax == 0 || rangeMax > 20 then 20 else rangeMax;
      var i := start - 1;
      while i < |matches| && |page| < most
        invariant |page| <= most && start - 1 <= i
        invariant i <= |matches| ==> page == matches[start - 1..i]
        invariant start - 1 <= |matches| ==> i <= |matches|
        invariant start - 1 > |matches| ==> page == []
      {
        page := page + [matches[i]];
        i := i + 1;
      }
    }
  }

  lemma RoomsAreListed(s: Server, key: string, worldId: nat)
    requires Inv(s) && RoomsAt(s, key, worldId) != {}
    ensures (key, worldId) in s.worldRooms
  {
    hide IndexOk, RoomOk;
    InvListsWorld(s, key, worldId);
  }

  lemma WorldIsSought(s: Server, key: string, worldId: nat)
    requires worldId != 0
    ensures forall x :: x in RoomsAt(s, key, worldId) <==> Sought(s, key, worldId, 0, x)
    ensures forall lobbyId: nat, x: nat :: Sought(s, key, worldId, lobbyId, x) == Sought(s, key, worldId, 0, x)
  {
    forall x: nat | Sought(s, key, worldId, 0, x)
      ensures x in RoomsAt(s, key, worldId)
    {
      assert (key, x) in s.rooms;
    }
  }

  lemma SoughtIsThere(s: Server, key: string, worldId: nat, lobbyId: nat)
    ensures forall x: nat :: Sought(s, key, worldId, lobbyId, x) ==> (key, x) in s.rooms
  {
  }

  lemma JoinStep(s: Server, key: string, roomId: nat, joiner: Member)
    ensures var step := Step(s, JoinRoom(key, roomId, joiner));
      if (key, roomId) !in s.rooms then step == (s, Refused(RoomMissing))
      else
        match Join(s.rooms[(key, roomId)], joiner)
        case Done(next) => step == (Put(s, key, roomId, next), Entered(roomId, AllocId(s.rooms[(key, roomId)])))
        case Failed(error) => step == (s, Refused(error))
        case Gone => true
  {
    hide Join, Put, AllocId;
  }

  lemma KickMissing(s: Server, key: string, roomId: nat, npid: string, target: nat, block: bool)
    ensures (key, roomId) !in s.rooms || MemberNamed(s.rooms[(key, roomId)].members, npid).None? ==>
      Step(s, KickoutRoomMember(key, roomId, npid, target, block)) == (s, Refused(RoomMissing))
  {
  }

  lemma KickEnds(
    s: Server, key: string, roomId: nat, npid: string, target: nat, block: bool,
    refused: Option<Error>, room: RoomState)
    requires (key, roomId) in s.rooms && MemberNamed(s.rooms[(key, roomId)].members, npid).Some?
    requires var kicker := MemberNamed(s.rooms[(key, roomId)].members, npid).value;
      Ended(Kick(s.rooms[(key, roomId)], kicker, target, block), s.rooms[(key, roomId)], refused, room)
    ensures Step(s, KickoutRoomMember(key, roomId, npid, target, block)) ==
      (Put(s, key, roomId, room), if refused.Some? then Refused(refused.value) else Accepted)
  {
    hide Kick, MemberNamed;
    PutSame(s, key, roomId);
  }

  lemma PutSame(s: Server, key: string, roomId: nat)
    requires (key, roomId) in s.rooms
    ensures Put(s, key, roomId, s.rooms[(key, roomId)]) == s
  {
  }

  lemma InvListsWorld(s: Server, key: string, worldId: nat)
    requires Inv(s)
    ensures var ids := Listed(s.worldRooms, (key, worldId));
      && Distinct(ids) && Elements(ids) == RoomsAt(s, key, worldId)
      && forall x :: x in ids ==> (key, x) in s.rooms
  {
    hide IndexOk, RoomOk;
    ListedIsWorld(s, key, worldId);
  }

  /** Names are distinct, so whichever member the search meets is the one. */
  lemma NamedIs(s: Server, key: string, roomId: nat, npid: string, id: Option<nat>)
    requires Inv(s) && (key, roomId) in s.rooms
    requires var members := s.rooms[(key, roomId)].members;
      && (id.Some? ==> id.value in members && members[id.value].npid == npid)
      && (id.None? ==> !HasNpid(members, npid))
    ensures MemberNamed(s.rooms[(key, roomId)].members, npid) == id
  {
    hide IndexOk, RoomExact, CountsOf, Keyed;
  }

  lemma DissolvedSame(s: Server, key: string, roomId: nat, room: RoomState)
    requires (key, roomId) in s.rooms
    requires room.worldId == s.rooms[(key, roomId)].worldId && room.lobbyId == s.rooms[(key, roomId)].lobbyId
    ensures Dissolved(Put(s, key, roomId, room), key, roomId, room)
            == Dissolved(s, key, roomId, s.rooms[(key, roomId)])
  {
    assert Put(s, key, roomId, room).rooms - {(key, roomId)} == s.rooms - {(key, roomId)};
  }

  lemma NothingListed(s: Server, key: string, ids: seq<nat>)
    ensures |Elements(ids[..0])| == 0 && MembersIn(s, key, Elements(ids[..0])) == 0
  {
    assert Elements(ids[..0]) == {};
  }

  lemma CountOneMore(s: Server, key: string, ids: seq<nat>, i: nat)
    requires Distinct(ids) && i < |ids|
    ensures |Elements(ids[..i + 1])| == |Elements(ids[..i])| + 1
    ensures MembersIn(s, key, Elements(ids[..i + 1]))
            == MembersIn(s, key, Elements(ids[..i])) + Population(s, key, ids[i])
  {
    OneMoreElement(ids, i);
    MembersInTake(s, key, Elements(ids[..i + 1]), ids[i]);
    assert Elements(ids[..i + 1]) - {ids[i]} == Elements(ids[..i]);
  }

  lemma LeaveMissing(s: Server, key: string, roomId: nat, npid: string)
    ensures (key, roomId) !in s.rooms || !HasNpid(s.rooms[(key, roomId)].members, npid) ==>
              forall hint: nat :: Step(s, LeaveRoom(key, roomId, npid, hint)) == (s, Refused(RoomMissing))
  {
  }

  lemma LeaveEnds(s: Server, key: string, roomId: nat, npid: string, id: nat, heir: nat)
    requires Inv(s) && (key, roomId) in s.rooms && MemberNamed(s.rooms[(key, roomId)].members, npid) == Some(id)
    ensures var room := s.rooms[(key, roomId)];
      var step := Step(s, LeaveRoom(key, roomId, npid, heir));
      && (room.members.Keys == {id} ==> step == (Dissolved(s, key, roomId, room), Accepted))
      && (room.members.Keys != {id} && heir in room.members && heir != id ==>
            Leave(room, id, heir).Done? && step == (Put(s, key, roomId, Leave(room, id, heir).room), Accepted))
  {
    hide IndexOk, RoomOk, Leave, Put, Dissolved;
    var room := s.rooms[(key, roomId)];
    LeaveOk(room, id, Heir(room.members, id, heir));
  }
}
