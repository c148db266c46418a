/** What the summon broker's calls answer, in terms of the request's own fields: which signs a search lists, what
    a claim, an advertisement and a removal do to a record. */
module SummonAnswers {
  import opened Common
  import JsonText
  import opened SummonBroker

  // ---------------------------------------------------------------------------------------------
  // Which signs fit a search

  /** The request names no value for any of these fields, or the very value of the sign. */
  ghost predicate SameWhereGiven(request: Object, sign: Object, keys: set<string>) {
    forall key :: key in keys && key in request && !request[key].Undefined? && !request[key].Null? ==>
      key in sign && sign[key] == request[key]
  }

  /** Entry i of the request's filter list names a summon type. */
  predicate NamesType(request: Object, i: int) {
    var list := Value(request, "SummonTypeList");
    list.List? && 0 <= i < |list.items| && list.items[i].Obj? && "SummonType" in list.items[i].fields
  }

  predicate NamesTypeOf(request: Object, i: int, sign: Object) {
    NamesType(request, i) &&
    (Integer(Value(request, "SummonTypeList").items[i].fields, "SummonType", 0) - Integer(sign, "SummonType", 0))
      % 0x1_0000_0000 == 0
  }

  function Square(n: int): int {
    n * n
  }

  /** How far the sign stands from the request, squared. */
  function DistanceSquared(request: Object, sign: Object): int {
    Square(Integer(request, "PosX", 0) - Integer(sign, "PosX", 0))
      + Square(Integer(request, "PosY", 0) - Integer(sign, "PosY", 0))
      + Square(Integer(request, "PosZ", 0) - Integer(sign, "PosZ", 0))
  }

  /** The sign is near in level and place, so far as the request says where it is. */
  predicate Nearby(request: Object, sign: Object) {
    var level, signLevel, reach := Integer(request, "MatchingLevel", -1), Integer(sign, "MatchingLevel", -1),
                                   Integer(request, "DistanceThreshold", -1);
    && (TextOf(request, "SummonWord") != "" || level < 0 || signLevel < 0
        || (signLevel <= level + 10 + level / 5 && level <= signLevel + 10 + level / 5))
    && (reach < 0 || "PosX" !in request || "PosY" !in request || "PosZ" !in request
        || DistanceSquared(request, sign) <= Square(reach))
  }

  /** Another user and another session; the version and method asked for; a type asked for, if any is; the word
      given, if any is; and, unless the search goes anywhere, the area asked for and nearby. */
  ghost predicate Fits(request: Object, sign: Object, anywhere: bool) {
    && Integer(sign, "UserId", -1) != Integer(request, "UserId", -1)
    && TextOf(sign, "SessionId") != TextOf(request, "SessionId")
    && SameWhereGiven(request, sign, {"SummonDataVersion", "SummonMethod"})
    && ((forall i :: !NamesType(request, i)) || exists i :: NamesTypeOf(request, i, sign))
    && (TextOf(request, "SummonWord") == "" || TextOf(sign, "SummonWord") == TextOf(request, "SummonWord"))
    && (anywhere || (SameWhereGiven(request, sign, {"AreaId", "AreaRegionId", "ChannelId"}) && Nearby(request, sign)))
  }

  lemma SameIsGiven(request: Object, sign: Object, key: string)
    ensures SameIfPresent(request, sign, key) <==> SameWhereGiven(request, sign, {key})
  {
  }

  lemma TwoKeys(request: Object, sign: Object, a: string, b: string)
    ensures SameWhereGiven(request, sign, {a, b}) <==>
            SameWhereGiven(request, sign, {a}) && SameWhereGiven(request, sign, {b})
  {
  }

  lemma ThreeKeys(request: Object, sign: Object, a: string, b: string, c: string)
    ensures SameWhereGiven(request, sign, {a, b, c}) <==>
            && SameWhereGiven(request, sign, {a}) && SameWhereGiven(request, sign, {b})
            && SameWhereGiven(request, sign, {c})
  {
  }

  /** Cut to 32 bits, two numbers are the same exactly when they differ by a multiple of 2^32. */
  lemma SameInt32(m: int, n: int)
    ensures ToInt32(m) == ToInt32(n) <==> (m - n) % 0x1_0000_0000 == 0
  {
    var w := 0x1_0000_0000;
    assert m == w * (m / w) + m % w && n == w * (n / w) + n % w;
    if m % w == n % w {
      assert m - n == w * (m / w - n / w);
    }
  }

  lemma TypesAsked(request: Object, sign: Object)
    ensures var wanted := Value(request, "SummonTypeList");
      var types := if wanted.List? then SummonTypes(wanted.items) else {};
      && (types == {} <==> forall i :: !NamesType(request, i))
      && (ToInt32(Integer(sign, "SummonType", 0)) in types <==> exists i :: NamesTypeOf(request, i, sign))
  {
    hide ToInt32;
    var wanted := Value(request, "SummonTypeList");
    if wanted.List? {
      var types := SummonTypes(wanted.items);
      forall i | NamesType(request, i)
        ensures ToInt32(Integer(wanted.items[i].fields, "SummonType", 0)) in types
        ensures ToInt32(Integer(sign, "SummonType", 0)) == ToInt32(Integer(wanted.items[i].fields, "SummonType", 0))
                <==> NamesTypeOf(request, i, sign)
      {
        SameInt32(Integer(wanted.items[i].fields, "SummonType", 0), Integer(sign, "SummonType", 0));
      }
      forall t | t in types
        ensures exists i :: NamesType(request, i) && t == ToInt32(Integer(wanted.items[i].fields, "SummonType", 0))
      {
        var i :| 0 <= i < |wanted.items| && wanted.items[i].Obj? && "SummonType" in wanted.items[i].fields
                 && t == ToInt32(Integer(wanted.items[i].fields, "SummonType", 0));
        assert NamesType(request, i);
      }
    }
  }

  lemma NearbyIs(request: Object, sign: Object)
    ensures Nearby(request, sign) <==>
      && (TextOf(request, "SummonWord") != "" ||
          LevelInRange(Integer(request, "MatchingLevel", -1), Integer(sign, "MatchingLevel", -1)))
      && NearEnough(request, sign)
  {
    hide Integer, TextOf;
  }

  /** The search's own test is that one. */
  lemma MatchesIsFits(request: Object, sign: Object, anywhere: bool)
    ensures MatchesSearch(request, sign, anywhere) <==> Fits(request, sign, anywhere)
  {
    hide SameIfPresent, SameWhereGiven, SummonTypes, NamesType, NamesTypeOf, Nearby, NearEnough, LevelInRange, ToInt32;
    TypesAsked(request, sign);
    NearbyIs(request, sign);
    SameIsGiven(request, sign, "SummonDataVersion");
    SameIsGiven(request, sign, "SummonMethod");
    SameIsGiven(request, sign, "AreaId");
    SameIsGiven(request, sign, "AreaRegionId");
    SameIsGiven(request, sign, "ChannelId");
    TwoKeys(request, sign, "SummonDataVersion", "SummonMethod");
    ThreeKeys(request, sign, "AreaId", "AreaRegionId", "ChannelId");
  }

  /** What is read from a field: a number, a text or a truth value where that is what it holds; else what stands for
      no value. */
  lemma FieldsRead(o: Object, key: string, fallback: int)
    ensures Value(o, key) == if key in o then o[key] else Undefined
    ensures forall n :: Value(o, key) == Number(n) ==> Integer(o, key, fallback) == n
    ensures forall s :: Value(o, key) == Text(s) ==> TextOf(o, key) == s
    ensures forall b :: Value(o, key) == Bool(b) ==> (Flag(o, key) <==> b)
    ensures !Value(o, key).Number? ==> Integer(o, key, fallback) == fallback
    ensures !Value(o, key).Text? ==> TextOf(o, key) == ""
    ensures !Value(o, key).Bool? ==> !Flag(o, key)
  {
  }

  /** The settings a broker runs under: times to live of at least a millisecond, the seamless one no shorter; a
      seamless broker searches anywhere. */
  lemma SettingsAre(o: Options, lib: Library)
    ensures var cfg := Settings(o, lib);
      && SettingsOk(cfg) && cfg.seamlessCoop == o.seamlessCoop && cfg.lib == lib
      && cfg.ttlMs == (if o.ttlMs >= 1 then o.ttlMs else 1)
      && cfg.seamlessTtlMs == (if o.seamlessTtlMs >= cfg.ttlMs then o.seamlessTtlMs else cfg.ttlMs)
      && (cfg.anywhere <==> o.seamlessCoop || o.seamlessAnywhereSummons)
  {
  }

  // ---------------------------------------------------------------------------------------------
  // What a search lists

  /** The placement names a map, and the sign stands on another. */
  predicate OnAnotherMap(cfg: Config, sign: Object, placement: Bytes) {
    match HostPlacementMap(cfg, placement)
    case None => false
    case Some(hostMap) => Integer(sign, "AreaId", -1) != hostMap
  }

  /** A host that plays seamlessly sends the owner of a sign on another map there first. */
  predicate SentAhead(cfg: Config, sign: Object, request: Object, placement: Bytes) {
    cfg.seamlessCoop && cfg.anywhere && Integer(request, "UserId", -1) >= 0 && OnAnotherMap(cfg, sign, placement)
  }

  /** The keys a search lists: those of the open signs that fit and are not sent ahead, and in seamless mode those
      of the signs that fit and are the requesting user's own claims or preparations with its claim. */
  lemma SearchListsIff(cfg: Config, live: Records, request: Object, placement: Bytes, k: string)
    requires k in live
    ensures k in ListedKeys(cfg, live, request, placement) <==>
      && Fits(request, live[k].advertisement, cfg.seamlessCoop && cfg.anywhere)
      && match live[k].state
         case Advertised => !SentAhead(cfg, live[k].advertisement, request, placement)
         case Consumed => false
         case _ =>
           && cfg.seamlessCoop && Integer(request, "UserId", -1) >= 0
           && "UserId" in live[k].claim && live[k].claim["UserId"] == Number(Integer(request, "UserId", -1))
  {
    hide MatchesSearch, Fits, HostPlacementMap;
    MatchesIsFits(request, live[k].advertisement, cfg.seamlessCoop && cfg.anywhere);
  }

  /** And the only records a search changes are the open signs that fit and are sent ahead: they go into
      preparation for this user and this placement. */
  lemma SearchPreparesIff(cfg: Config, records: Records, request: Object, placement: Bytes, now: int, k: string)
    requires k in Live(cfg, records, now)
    ensures var r, after := records[k], After(cfg, records, Step(Search(request, placement), now));
      && k in after
      && after[k] ==
           if r.state == Advertised && Fits(request, r.advertisement, cfg.seamlessCoop && cfg.anywhere)
              && SentAhead(cfg, r.advertisement, request, placement)
           then Record(Preparing, r.advertisement, r.rawAdvertisement, r.claim, r.rawClaim, placement,
                       Integer(request, "UserId", -1), now)
           else r
  {
    hide MatchesSearch, Fits, HostPlacementMap, Expired;
    MatchesIsFits(request, records[k].advertisement, cfg.seamlessCoop && cfg.anywhere);
  }

  /** How many signs are shown at most: 20 unless the request says otherwise, none for a negative number. */
  lemma MaxCountIs(request: Object, n: int)
    ensures "GetMaxCount" !in request ==> MaxCount(request) == 20
    ensures "GetMaxCount" in request && request["GetMaxCount"] == Number(n) && -0x8000_0000 <= n < 0x8000_0000 ==>
      MaxCount(request) == if n < 0 then 0 else n
  {
  }

  /** What a purge leaves: a record is kept as long as its last change is no older than its time to live, the longer
      one for active records in seamless mode. */
  lemma LiveIff(cfg: Config, records: Records, now: int, k: string)
    ensures k in Live(cfg, records, now) <==>
      && k in records
      && now <= records[k].updatedAtMs
                + if cfg.seamlessCoop && records[k].state in {Preparing, Claimed, Delivered} then cfg.seamlessTtlMs
                  else cfg.ttlMs
    ensures k in Live(cfg, records, now) ==> Live(cfg, records, now)[k] == records[k]
  {
  }

  // ---------------------------------------------------------------------------------------------
  // A sign shown through a spoofed location is one the host takes for its own neighbourhood

  const LOCATION_FIELDS: set<string> :=
    {"AreaId", "AreaRegionId", "ChannelId", "MatchingLevel", "PosX", "PosY", "PosZ"}

  /** The sign as the host is shown it: its own location in place of the sign's. */
  function Spoofed(request: Object, sign: Object): Object {
    map key | key in sign.Keys + (request.Keys * LOCATION_FIELDS) ::
      if key in LOCATION_FIELDS && key in request && Given(request[key]) then request[key] else Value(sign, key)
  }

  lemma LocationIsSpoofed()
    ensures forall key :: key in JsonText.SPOOFED_KEYS <==> key in LOCATION_FIELDS
    ensures forall key :: JsonText.ShouldSpoof(key) <==> key in LOCATION_FIELDS
  {
  }

  lemma SpoofedValue(request: Object, sign: Object, key: string)
    ensures key in LOCATION_FIELDS && Given(Value(request, key)) ==> Value(Spoofed(request, sign), key) == request[key]
    ensures key !in LOCATION_FIELDS ==> Value(Spoofed(request, sign), key) == Value(sign, key)
  {
  }

  lemma SpoofedSame(request: Object, sign: Object, key: string)
    requires key in LOCATION_FIELDS || SameWhereGiven(request, sign, {key})
    ensures SameWhereGiven(request, Spoofed(request, sign), {key})
  {
    SpoofedValue(request, sign, key);
    SameIsGiven(request, sign, key);
    SameIsGiven(request, Spoofed(request, sign), key);
  }

  lemma SpoofedType(request: Object, sign: Object, i: int)
    ensures NamesTypeOf(request, i, Spoofed(request, sign)) <==> NamesTypeOf(request, i, sign)
  {
    hide Spoofed;
    SpoofedValue(request, sign, "SummonType");
  }

  lemma SpoofedKeepsWho(request: Object, sign: Object)
    ensures var shown := Spoofed(request, sign);
      && Integer(shown, "UserId", -1) == Integer(sign, "UserId", -1)
      && TextOf(shown, "SessionId") == TextOf(sign, "SessionId")
      && TextOf(shown, "SummonWord") == TextOf(sign, "SummonWord")
  {
    hide Spoofed;
    SpoofedValue(request, sign, "UserId");
    SpoofedValue(request, sign, "SessionId");
    SpoofedValue(request, sign, "SummonWord");
  }

  /** A sign that fits a search that goes anywhere fits the same search with all its conditions on place and level,
      as the host is shown it; where a position the request has is given. */
  lemma SpoofedSignFits(request: Object, sign: Object)
    requires Fits(request, sign, true)
    requires forall key :: key in {"PosX", "PosY", "PosZ"} && key in request ==> Given(request[key])
    ensures Fits(request, Spoofed(request, sign), false)
  {
    hide Spoofed, SameWhereGiven, NamesTypeOf, NamesType, Nearby, Integer, TextOf;
    var shown := Spoofed(request, sign);
    SpoofedKeepsWho(request, sign);
    forall i
      ensures NamesTypeOf(request, i, shown) <==> NamesTypeOf(request, i, sign)
    {
      SpoofedType(request, sign, i);
    }
    SpoofedIsNearby(request, sign);
    TwoKeys(request, sign, "SummonDataVersion", "SummonMethod");
    SpoofedSame(request, sign, "SummonDataVersion");
    SpoofedSame(request, sign, "SummonMethod");
    TwoKeys(request, shown, "SummonDataVersion", "SummonMethod");
    SpoofedSame(request, sign, "AreaId");
    SpoofedSame(request, sign, "AreaRegionId");
    SpoofedSame(request, sign, "ChannelId");
    ThreeKeys(request, shown, "AreaId", "AreaRegionId", "ChannelId");
  }

  lemma SpoofedIsNearby(request: Object, sign: Object)
    requires forall key :: key in {"PosX", "PosY", "PosZ"} && key in request ==> Given(request[key])
    ensures Nearby(request, Spoofed(request, sign))
  {
    var shown := Spoofed(request, sign);
    hide Spoofed;
    forall key | key in {"MatchingLevel", "PosX", "PosY", "PosZ"} && Given(Value(request, key))
      ensures Value(shown, key) == Value(request, key)
    {
      SpoofedValue(request, sign, key);
    }
    SquareIsNatural(Integer(request, "DistanceThreshold", -1));
  }

  lemma SquareIsNatural(n: int)
    ensures Square(n) >= 0 && Square(0) == 0
  {
  }

  // ---------------------------------------------------------------------------------------------
  // Advertising, claiming and removing

  /** What an advertisement does to the record of its owner and session, and what is answered: a fresh sign, unless a
      live record that is not consumed is there. That one takes the new text and keeps its claim; a preparation ends,
      and in seamless mode a claim is delivered, only on the map the placement names. */
  lemma AdvertiseAnswers(cfg: Config, records: Records, body: Object, raw: Bytes, now: int)
    ensures var live, k := Live(cfg, records, now), KeyOf(TextOf(body, "SessionId"), Integer(body, "UserId", -1));
      var after := After(cfg, records, Step(Advertise(body, raw), now));
      var answer := AdvertiseRecord(cfg, LookUp(live, RecordKey(body)), body, raw, now).1;
      && k in after && after == live[k := after[k]]
      && if k !in live || live[k].state == Consumed then
           && after[k] == Record(Advertised, body, raw, map[], "", "", -1, now)
           && answer == Answer(Advertised, "", "")
         else
           var r, next := live[k], after[k];
           && next.advertisement == body && next.rawAdvertisement == raw && next.updatedAtMs == now
           && next.claim == r.claim && next.rawClaim == r.rawClaim && next.hostPlacement == r.hostPlacement
           && next.state == (match r.state
                             case Preparing =>
                               if OnAnotherMap(cfg, body, r.hostPlacement) then Preparing else Advertised
                             case Claimed =>
                               if cfg.seamlessCoop && OnAnotherMap(cfg, body, r.hostPlacement) then Claimed
                               else Delivered
                             case other => other)
           && answer.state == next.state
           && answer.pendingClaim == (if next.state == Delivered then r.rawClaim else "")
           && answer.pendingHostPlacement == (if next.state == Advertised then "" else r.hostPlacement)
  {
    hide HostPlacementMap, Expired;
  }

  /** What a claim on a live record answers, and what becomes of the record: an open one is given to the first who
      claims it; a claimed one only to the same user again, in seamless mode, with another request. */
  lemma ClaimAnswers(
    cfg: Config, records: Records, request: Object, raw: Bytes, placement: Bytes, k: string, now: int)
    requires k in Live(cfg, records, now)
    ensures var r, live := records[k], Live(cfg, records, now);
      var after := After(cfg, records, Step(Claim(request, raw, placement, Some(k)), now));
      var status := ClaimRecord(cfg, r, request, raw, placement, now).1;
      var held := r.state in {Claimed, Delivered};
      && (status == NotFound <==> r.state == Consumed)
      && (status == AlreadyClaimed <==> held && r.claim == request)
      && (status == Accepted <==>
            || r.state in {Advertised, Preparing}
            || (&& held && r.claim != request && cfg.seamlessCoop
                && Integer(request, "UserId", -1) >= 0
                && Integer(request, "UserId", -1) == Integer(r.claim, "UserId", -1)))
      && (status != Accepted ==> after == live)
      && (status == Accepted ==>
            && k in after && after == live[k := after[k]]
            && after[k].state == Claimed && after[k].claim == request && after[k].rawClaim == raw
            && after[k].advertisement == r.advertisement && after[k].rawAdvertisement == r.rawAdvertisement
            && after[k].updatedAtMs == now
            && after[k].hostPlacement == (if cfg.seamlessCoop && |placement| <= 128 && '\r' !in placement
                                             && '\n' !in placement then placement else ""))
  {
    hide Expired;
    var live := Live(cfg, records, now);
    assert live[k := live[k]] == live;
  }

  /** The record is of the session named, or of the user and character. */
  predicate OfSession(r: Record, session: string) {
    "SessionId" in r.advertisement && r.advertisement["SessionId"] == Text(session)
  }

  predicate OfUser(r: Record, request: Object) {
    && "TargetUserId" in request && request["TargetUserId"].Number?
    && Integer(r.advertisement, "UserId", -1) == request["TargetUserId"].n
    && ("TargetCharaId" in request && !request["TargetCharaId"].Undefined? && !request["TargetCharaId"].Null? ==>
          "CharaId" in r.advertisement && r.advertisement["CharaId"] == request["TargetCharaId"])
  }

  /** Which record a claim is about. */
  lemma ClaimTargetIs(live: Records, request: Object, target: Option<string>)
    ensures var session := TextOf(request, "SessionId");
      IsClaimTarget(live, request, target) <==>
        if session != "" && exists k :: k in live && OfSession(live[k], session) then
          target.Some? && target.value in live && OfSession(live[target.value], session)
        else if exists k :: k in live && OfUser(live[k], request) then
          && target.Some? && target.value in live && OfUser(live[target.value], request)
          && forall k :: k in live && OfUser(live[k], request) ==> live[k].updatedAtMs <= live[target.value].updatedAtMs
        else target == None
  {
    forall k | k in live
      ensures TextOf(request, "SessionId") != "" ==>
        (HasSession(live[k], TextOf(request, "SessionId")) <==> OfSession(live[k], TextOf(request, "SessionId")))
      ensures HasTarget(live[k], request) <==> OfUser(live[k], request)
    {
    }
    hide HasSession, HasTarget, OfSession, OfUser;
  }

  /** The record is one the removal names: not yet consumed, of the session and of the user named; a request that
      names neither names nothing. */
  predicate NamedBy(r: Record, request: Object) {
    var session, byUser := TextOf(request, "SessionId"), "UserId" in request && request["UserId"].Number?;
    && r.state != Consumed && (session != "" || byUser)
    && (session != "" ==> TextOf(r.advertisement, "SessionId") == session)
    && (byUser ==> Integer(r.advertisement, "UserId", -1) == request["UserId"].n)
  }

  predicate IsTrue(request: Object, key: string) {
    key in request && request[key] == Bool(true)
  }

  /** What a removal does to each live record: nothing unless it names it; in seamless mode an active one is only
      renewed, unless the request forces it or leaves for good; any other is consumed. */
  lemma ConsumeAnswers(cfg: Config, records: Records, request: Object, now: int, k: string)
    requires k in Live(cfg, records, now)
    ensures var r, live := records[k], Live(cfg, records, now);
      var after := After(cfg, records, Step(Consume(request), now));
      var kept := && cfg.seamlessCoop && r.state in {Preparing, Claimed, Delivered}
                  && !IsTrue(request, "Force") && !IsTrue(request, "SeamlessLeave");
      && k in after
      && after[k] == (if !NamedBy(r, request) then r
                      else if kept then r.(updatedAtMs := now) else r.(state := Consumed, updatedAtMs := now))
      && (k in Retainable(cfg, live, request) <==> NamedBy(r, request) && kept)
      && (k in Consumable(cfg, live, request) <==> NamedBy(r, request) && !kept)
  {
    hide Expired;
  }
}
