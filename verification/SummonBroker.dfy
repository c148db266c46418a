/** The summon broker: advertised signs, the claim on each, and the five states a record goes through.
    Each call is one step under the broker's lock; the clock reading is an argument. */
module SummonBroker {
  import opened Common
  import JsonMembers
  import JsonText

  // ---------------------------------------------------------------------------------------------
  // Parsed requests

  /** A parsed JSON value; numbers are the integers that QJsonValue reads back exactly. */
  datatype Json =
    | Undefined
    | Null
    | Bool(b: bool)
    | Number(n: int)
    | Text(s: string)
    | List(items: seq<Json>)
    | Obj(fields: map<string, Json>)

  type Object = map<string, Json>

  function Value(o: Object, key: string): Json {
    if key in o then o[key] else Undefined
  }

  function Integer(o: Object, key: string, fallback: int): int {
    var v := Value(o, key);
    if v.Number? then v.n else fallback
  }

  function OptionalInteger(o: Object, key: string): Option<int> {
    var v := Value(o, key);
    if v.Number? then Some(v.n) else None
  }

  function TextOf(o: Object, key: string): string {
    var v := Value(o, key);
    if v.Text? then v.s else ""
  }

  predicate Flag(o: Object, key: string) {
    var v := Value(o, key);
    v.Bool? && v.b
  }

  predicate Given(v: Json) {
    !v.Undefined? && !v.Null?
  }

  /** static_cast<int>: the low 32 bits, signed. */
  function ToInt32(n: int): int {
    var low := n % 0x1_0000_0000;
    if low < 0x8000_0000 then low else low - 0x1_0000_0000
  }

  // ---------------------------------------------------------------------------------------------
  // Record keys

  function Digits(n: nat): string {
    var last := ['0' + (n % 10) as char];
    if n < 10 then last else Digits(n / 10) + last
  }

  /** QString::number */
  function Decimal(n: int): string {
    if n < 0 then "-" + Digits(-n) else Digits(n)
  }

  function KeyOf(sessionId: string, userId: int): string {
    sessionId + ":" + Decimal(userId)
  }

  function RecordKey(advertisement: Object): string {
    KeyOf(TextOf(advertisement, "SessionId"), Integer(advertisement, "UserId", -1))
  }

  lemma {:induction false} DigitsAreDigits(n: nat)
    ensures Digits(n) != "" && forall i :: 0 <= i < |Digits(n)| ==> '0' <= Digits(n)[i] <= '9'
  {
    if n >= 10 {
      DigitsAreDigits(n / 10);
    }
  }

  lemma {:induction false} DigitsInjective(m: nat, n: nat)
    requires Digits(m) == Digits(n)
    ensures m == n
    decreases m
  {
    var dm, dn := Digits(m), Digits(n);
    assert dm[|dm| - 1] == dn[|dn| - 1];
    DigitsAreDigits(m / 10);
    DigitsAreDigits(n / 10);
    if m >= 10 {
      assert dm[..|dm| - 1] == Digits(m / 10);
      assert n >= 10;
      assert dn[..|dn| - 1] == Digits(n / 10);
      DigitsInjective(m / 10, n / 10);
    }
  }

  lemma DecimalSign(n: int)
    ensures Decimal(n)[0] == '-' <==> n < 0
  {
    DigitsAreDigits(if n < 0 then -n else n);
  }

  lemma DecimalInjective(m: int, n: int)
    requires Decimal(m) == Decimal(n)
    ensures m == n
  {
    DecimalSign(m);
    DecimalSign(n);
    if m < 0 {
      assert Decimal(m)[1..] == Digits(-m) && Decimal(n)[1..] == Digits(-n);
      DigitsInjective(-m, -n);
    } else {
      DigitsInjective(m, n);
    }
  }

  lemma NoColonInDecimal(n: int)
    ensures forall i :: 0 <= i < |Decimal(n)| ==> Decimal(n)[i] != ':'
  {
    DigitsAreDigits(if n < 0 then -n else n);
  }

  function AfterLastColon(k: string): string {
    if k == "" || k[|k| - 1] == ':' then "" else AfterLastColon(k[..|k| - 1]) + [k[|k| - 1]]
  }

  lemma {:induction false} AfterLastColonOf(s: string, d: string)
    requires forall i :: 0 <= i < |d| ==> d[i] != ':'
    ensures AfterLastColon(s + ":" + d) == d
    decreases |d|
  {
    var k := s + ":" + d;
    if d != "" {
      assert k[..|k| - 1] == s + ":" + d[..|d| - 1];
      AfterLastColonOf(s, d[..|d| - 1]);
    }
  }

  /** Two advertisements share a record only when session and user agree, even where a session id
      holds colons itself. */
  lemma KeyInjective(s: string, m: int, t: string, n: int)
    requires KeyOf(s, m) == KeyOf(t, n)
    ensures s == t && m == n
  {
    NoColonInDecimal(m);
    NoColonInDecimal(n);
    AfterLastColonOf(s, Decimal(m));
    AfterLastColonOf(t, Decimal(n));
    DecimalInjective(m, n);
    assert s == KeyOf(s, m)[..|s|] && t == KeyOf(t, n)[..|t|];
  }

  // ---------------------------------------------------------------------------------------------
  // Records and settings

  datatype State = Advertised | Preparing | Claimed | Delivered | Consumed

  datatype Record = Record(
    state: State,
    advertisement: Object, rawAdvertisement: Bytes,
    claim: Object, rawClaim: Bytes,
    hostPlacement: Bytes,
    preparationRequester: int,
    updatedAtMs: int)

  type Records = map<string, Record>

  datatype Options = Options(ttlMs: int, seamlessTtlMs: int, seamlessCoop: bool, seamlessAnywhereSummons: bool)

  /** Library calls the broker relies on: Qt's base-16 number parser, its compact JSON printer, and
      the base64 payload whose result count a search sets. */
  datatype Library = Library(
    parseHex: Bytes -> Option<nat>,
    compact: Json -> JsonText.JValue,
    availableResult: Object -> Option<JsonText.JValue>)

  datatype Config = Config(
    ttlMs: int, seamlessTtlMs: int, seamlessCoop: bool, anywhere: bool, lib: Library)

  /** The settings the constructor keeps. */
  function Settings(o: Options, lib: Library): Config {
    var ttl := Max(1, o.ttlMs);
    Config(ttl, Max(ttl, o.seamlessTtlMs), o.seamlessCoop, o.seamlessAnywhereSummons || o.seamlessCoop, lib)
  }

  predicate SettingsOk(cfg: Config) {
    0 < cfg.ttlMs <= cfg.seamlessTtlMs && (cfg.seamlessCoop ==> cfg.anywhere)
  }

  predicate IsSeamlessActive(state: State) {
    state == Preparing || state == Claimed || state == Delivered
  }

  function Ttl(cfg: Config, state: State): int {
    if cfg.seamlessCoop && IsSeamlessActive(state) then cfg.seamlessTtlMs else cfg.ttlMs
  }

  predicate Expired(cfg: Config, r: Record, now: int) {
    now - r.updatedAtMs > Ttl(cfg, r.state)
  }

  /** The records that outlive the purge at the start of every call. */
  function Live(cfg: Config, records: Records, now: int): Records {
    map k | k in records && !Expired(cfg, records[k], now) :: records[k]
  }

  /** The map a host placement names: the hexadecimal number after the leading "1,". */
  function HostPlacementMap(cfg: Config, placement: Bytes): (r: Option<nat>)
    ensures r.Some? ==> 0 < r.value <= 0xFFFF_FFFF
  {
    if !("1," <= placement) then None
    else
      var end := IndexOf(placement, ",", 2);
      if end.None? then None
      else
        var packed := cfg.lib.parseHex(placement[2..end.value]);
        if packed.None? || packed.value == 0 || packed.value > 0xFFFF_FFFF then None else packed
  }

  /** The form of a placement: "1,", a field without commas, a comma and anything. */
  predicate IsPlacement(placement: Bytes, field: Bytes, rest: Bytes) {
    placement == "1," + field + "," + rest && ',' !in field
  }

  lemma CommaAt(s: Bytes, i: nat)
    ensures MatchesAt(s, ",", i) <==> i < |s| && s[i] == ','
  {
    if i < |s| {
      assert s[i..i + 1] == [s[i]];
    }
  }

  lemma FieldEnds(placement: Bytes, field: Bytes, rest: Bytes)
    requires IsPlacement(placement, field, rest)
    ensures "1," <= placement && 2 + |field| <= |placement|
    ensures IndexOf(placement, ",", 2) == Some(2 + |field|) && placement[2..2 + |field|] == field
  {
    hide MatchesAt, IndexOf;
    CommaAt(placement, 2 + |field|);
    forall k | 2 <= k < 2 + |field|
      ensures !MatchesAt(placement, ",", k)
    {
      CommaAt(placement, k);
      assert placement[k] == field[k - 2];
    }
  }

  lemma FieldFound(placement: Bytes, end: nat)
    requires "1," <= placement && IndexOf(placement, ",", 2) == Some(end)
    ensures IsPlacement(placement, placement[2..end], placement[end + 1..])
  {
    hide MatchesAt, IndexOf;
    CommaAt(placement, end);
    forall i | 0 <= i < end - 2
      ensures placement[2..end][i] != ','
    {
      CommaAt(placement, i + 2);
    }
  }

  /** A placement names a map exactly when it has that form and its field is the map's number. */
  lemma PlacementNamesMap(cfg: Config, placement: Bytes, hostMap: nat)
    ensures HostPlacementMap(cfg, placement) == Some(hostMap) <==>
      && 0 < hostMap <= 0xFFFF_FFFF
      && exists field, rest :: IsPlacement(placement, field, rest) && cfg.lib.parseHex(field) == Some(hostMap)
  {
    hide IndexOf, IsPlacement, MatchesAt;
    forall field, rest | IsPlacement(placement, field, rest)
      ensures "1," <= placement && 2 + |field| <= |placement|
    ensures IndexOf(placement, ",", 2) == Some(2 + |field|) && placement[2..2 + |field|] == field
    {
      FieldEnds(placement, field, rest);
    }
    var end := IndexOf(placement, ",", 2);
    if "1," <= placement && end.Some? {
      CommaAt(placement, end.value);
      FieldFound(placement, end.value);
    }
  }

  /** The placement names a map other than the one in the advertisement. */
  predicate Elsewhere(cfg: Config, advertisement: Object, placement: Bytes) {
    var hostMap := HostPlacementMap(cfg, placement);
    hostMap.Some? && Integer(advertisement, "AreaId", -1) != hostMap.value
  }

  // ---------------------------------------------------------------------------------------------
  // Which signs a request may see

  predicate SameIfPresent(request: Object, sign: Object, key: string) {
    Given(Value(request, key)) ==> Value(request, key) == Value(sign, key)
  }

  function SummonTypes(filters: seq<Json>): set<int> {
    set i | 0 <= i < |filters| && filters[i].Obj? && "SummonType" in filters[i].fields
      :: ToInt32(Integer(filters[i].fields, "SummonType", 0))
  }

  predicate NearEnough(request: Object, sign: Object) {
    var distance := Integer(request, "DistanceThreshold", -1);
    distance >= 0 && "PosX" in request && "PosY" in request && "PosZ" in request ==>
      var dx := Integer(request, "PosX", 0) - Integer(sign, "PosX", 0);
      var dy := Integer(request, "PosY", 0) - Integer(sign, "PosY", 0);
      var dz := Integer(request, "PosZ", 0) - Integer(sign, "PosZ", 0);
      dx * dx + dy * dy + dz * dz <= distance * distance
  }

  predicate LevelInRange(requestLevel: int, signLevel: int) {
    requestLevel >= 0 && signLevel >= 0 ==>
      var range := 10 + requestLevel / 5;
      -range <= requestLevel - signLevel <= range
  }

  predicate MatchesSearch(request: Object, sign: Object, anywhere: bool) {
    && Integer(sign, "UserId", -1) != Integer(request, "UserId", -1)
    && TextOf(sign, "SessionId") != TextOf(request, "SessionId")
    && SameIfPresent(request, sign, "SummonDataVersion")
    && SameIfPresent(request, sign, "SummonMethod")
    && (anywhere ||
        (&& SameIfPresent(request, sign, "AreaId")
         && SameIfPresent(request, sign, "AreaRegionId")
         && SameIfPresent(request, sign, "ChannelId")))
    && (var wanted := Value(request, "SummonTypeList");
        var types := if wanted.List? then SummonTypes(wanted.items) else {};
        types == {} || ToInt32(Integer(sign, "SummonType", 0)) in types)
    && (var word := TextOf(request, "SummonWord");
        && (word == "" || word == TextOf(sign, "SummonWord"))
        && (anywhere || word != "" ||
            LevelInRange(Integer(request, "MatchingLevel", -1), Integer(sign, "MatchingLevel", -1))))
    && (anywhere || NearEnough(request, sign))
  }

  // ---------------------------------------------------------------------------------------------
  // The calls, record by record

  datatype Answer = Answer(state: State, pendingClaim: Bytes, pendingHostPlacement: Bytes)

  /** Advertise: what becomes of the record under the advertisement's key, and what is answered. */
  function AdvertiseRecord(cfg: Config, was: Option<Record>, body: Object, raw: Bytes, now: int): (Record, Answer) {
    if was.None? || was.value.state == Consumed then
      (Record(Advertised, body, raw, map[], "", "", -1, now), Answer(Advertised, "", ""))
    else
      var r := was.value.(advertisement := body, rawAdvertisement := raw, updatedAtMs := now);
      match r.state
      case Preparing =>
        if Elsewhere(cfg, body, r.hostPlacement) then (r, Answer(Preparing, "", r.hostPlacement))
        else (r.(state := Advertised, preparationRequester := -1), Answer(Advertised, "", ""))
      case Claimed =>
        if cfg.seamlessCoop && Elsewhere(cfg, body, r.hostPlacement) then (r, Answer(Claimed, "", r.hostPlacement))
        else (r.(state := Delivered), Answer(Delivered, r.rawClaim, r.hostPlacement))
      case Delivered => (r, Answer(Delivered, r.rawClaim, r.hostPlacement))
      case _ => (r, Answer(r.state, "", ""))
  }

  predicate SearchesAnywhere(cfg: Config) {
    cfg.seamlessCoop && cfg.anywhere
  }

  /** The search sends this record's owner to the host's map first. */
  predicate SendsAway(cfg: Config, r: Record, request: Object, placement: Bytes) {
    && r.state == Advertised && MatchesSearch(request, r.advertisement, SearchesAnywhere(cfg))
    && SearchesAnywhere(cfg) && Integer(request, "UserId", -1) >= 0
    && Elsewhere(cfg, r.advertisement, placement)
  }

  /** The search lists this record. */
  predicate Listed(cfg: Config, r: Record, request: Object, placement: Bytes) {
    && MatchesSearch(request, r.advertisement, SearchesAnywhere(cfg))
    && if r.state == Advertised then !SendsAway(cfg, r, request, placement)
       else
         && cfg.seamlessCoop && IsSeamlessActive(r.state)
         && Integer(request, "UserId", -1) >= 0
         && Integer(r.claim, "UserId", -2) == Integer(request, "UserId", -1)
  }

  function SearchRecord(cfg: Config, r: Record, request: Object, placement: Bytes, now: int): Record {
    if SendsAway(cfg, r, request, placement) then
      r.(state := Preparing, hostPlacement := placement,
         preparationRequester := Integer(request, "UserId", -1), updatedAtMs := now)
    else r
  }

  /** The advertisement as the searching host is shown it. */
  function Shown(cfg: Config, r: Record, request: Object): Bytes {
    var members := JsonMembers.TopLevel(r.rawAdvertisement);
    if members == [] then r.rawAdvertisement
    else JsonMembers.Braced(JsonText.SearchMembers(RewriteFor(cfg, r, request), members))
  }

  function RewriteFor(cfg: Config, r: Record, request: Object): JsonText.Rewrite {
    JsonText.Rewrite(
      cfg.lib.availableResult(r.advertisement),
      map key | key in request && Given(request[key]) :: cfg.lib.compact(request[key]),
      SearchesAnywhere(cfg))
  }

  /** Qt prints JSON. */
  ghost predicate LibraryOk(lib: Library) {
    && (forall v :: JsonText.ValueOk(lib.compact(v)))
    && (forall o :: lib.availableResult(o).Some? ==> JsonText.ValueOk(lib.availableResult(o).value))
  }

  /** For an advertisement that is a JSON object, printed in any way: the searching host is shown the object's
      own members in their order, each with the very text it was sent in, but for the payload whose result
      count is set and, where location is spoofed, the location fields the host itself sent. */
  lemma ShownIsAdvertisement(
    cfg: Config, r: Record, request: Object,
    lead: Bytes, pad: Bytes, fs: JsonText.Fields, trail: Bytes)
    requires LibraryOk(cfg.lib)
    requires AllSpace(lead) && AllSpace(trail)
    requires JsonText.ValueOk(JsonText.Obj(pad, fs)) && fs.Field?
    requires r.rawAdvertisement == lead + JsonText.Print(JsonText.Obj(pad, fs)) + trail
    ensures var seen, own := JsonMembers.TopLevel(Shown(cfg, r, request)), JsonText.MembersOf(fs);
      && |own| <= |seen| && (!SearchesAnywhere(cfg) ==> |seen| == |own|)
      && forall i :: 0 <= i < |own| ==>
           && seen[i].key == own[i].key
           && (|| seen[i] == own[i]
               || (own[i].key == "SummonData" && cfg.lib.availableResult(r.advertisement).Some?)
               || (&& SearchesAnywhere(cfg) && JsonText.ShouldSpoof(own[i].key)
                   && Given(Value(request, own[i].key))))
  {
    hide JsonMembers.TopLevel, JsonMembers.Braced, JsonText.Print, JsonText.MembersOf, JsonText.SPOOFED_KEYS,
         JsonText.Missing, JsonMembers.Closed;
    var w := RewriteFor(cfg, r, request);
    JsonText.PrintedObjectScans(lead, pad, fs, trail);
    JsonText.PrintedObjectExtends(fs, w);
    JsonText.FieldsHaveMembers(fs);
    JsonText.SearchKeepsMembers(r.rawAdvertisement, w);
  }

  datatype ClaimStatus = Accepted | AlreadyClaimed | NotFound | Conflict

  const MAX_HOST_PLACEMENT_SIZE := 128

  /** Claim: what becomes of the target record. */
  function ClaimRecord(
    cfg: Config, r: Record, request: Object, raw: Bytes, placement: Bytes, now: int): (Record, ClaimStatus)
  {
    if r.state == Consumed then (r, NotFound)
    else if (r.state == Claimed || r.state == Delivered) && r.claim == request then (r, AlreadyClaimed)
    else if (r.state == Claimed || r.state == Delivered) &&
            !(&& cfg.seamlessCoop && Integer(request, "UserId", -1) >= 0
              && Integer(r.claim, "UserId", -1) == Integer(request, "UserId", -1)) then (r, Conflict)
    else
      var kept := if cfg.seamlessCoop && placement != "" && |placement| <= MAX_HOST_PLACEMENT_SIZE
                     && '\r' !in placement && '\n' !in placement then placement else "";
      (r.(state := Claimed, claim := request, rawClaim := raw, hostPlacement := kept, updatedAtMs := now), Accepted)
  }

  predicate HasSession(r: Record, session: string) {
    TextOf(r.advertisement, "SessionId") == session
  }

  /** The record is one the claim may mean by user and character. */
  predicate HasTarget(r: Record, request: Object) {
    && OptionalInteger(request, "TargetUserId").Some?
    && Integer(r.advertisement, "UserId", -1) == OptionalInteger(request, "TargetUserId").value
    && (Given(Value(request, "TargetCharaId")) ==>
          Value(r.advertisement, "CharaId") == Value(request, "TargetCharaId"))
  }

  /** Which record a claim is about: any with the session it names; failing that, the newest of those
      with its target user and character. Among equals the order of the hash table decides. */
  ghost predicate IsClaimTarget(live: Records, request: Object, target: Option<string>) {
    var session := TextOf(request, "SessionId");
    if session != "" && exists k :: k in live && HasSession(live[k], session) then
      target.Some? && target.value in live && HasSession(live[target.value], session)
    else if exists k :: k in live && HasTarget(live[k], request) then
      && target.Some? && target.value in live && HasTarget(live[target.value], request)
      && forall k :: k in live && HasTarget(live[k], request) ==>
           live[k].updatedAtMs <= live[target.value].updatedAtMs
    else target.None?
  }

  predicate Forced(request: Object) {
    Flag(request, "Force") || Flag(request, "SeamlessLeave")
  }

  predicate NamesSomething(request: Object) {
    TextOf(request, "SessionId") != "" || OptionalInteger(request, "UserId").Some?
  }

  /** The record is live business of a removal request. */
  predicate Removes(r: Record, request: Object) {
    && NamesSomething(request)
    && (TextOf(request, "SessionId") == "" || HasSession(r, TextOf(request, "SessionId")))
    && (OptionalInteger(request, "UserId").None? ||
        Integer(r.advertisement, "UserId", -1) == OptionalInteger(request, "UserId").value)
    && r.state != Consumed
  }

  /** A removal in seamless mode keeps an active record unless it is forced. */
  predicate Retains(cfg: Config, r: Record, request: Object) {
    Removes(r, request) && cfg.seamlessCoop && !Forced(request) && IsSeamlessActive(r.state)
  }

  function ConsumeRecord(cfg: Config, r: Record, request: Object, now: int): Record {
    if !Removes(r, request) then r
    else if Retains(cfg, r, request) then r.(updatedAtMs := now)
    else r.(state := Consumed, updatedAtMs := now)
  }

  // ---------------------------------------------------------------------------------------------
  // One call

  datatype Call =
    | Advertise(body: Object, rawBody: Bytes)
    | Search(request: Object, placement: Bytes)
    | Claim(request: Object, rawRequest: Bytes, placement: Bytes, target: Option<string>)
    | Consume(request: Object)
    | Look

  /** A call with the clock reading it was made at. */
  datatype Step = Step(call: Call, now: int)

  function LookUp(records: Records, k: string): Option<Record> {
    if k in records then Some(records[k]) else None
  }

  function AdvertisedBy(cfg: Config, live: Records, body: Object, raw: Bytes, now: int): Records {
    live[RecordKey(body) := AdvertiseRecord(cfg, LookUp(live, RecordKey(body)), body, raw, now).0]
  }

  function Searched(cfg: Config, live: Records, request: Object, placement: Bytes, now: int): Records {
    map k | k in live :: SearchRecord(cfg, live[k], request, placement, now)
  }

  function ClaimedAt(
    cfg: Config, live: Records, request: Object, raw: Bytes, placement: Bytes, target: Option<string>, now: int)
    : Records
  {
    if target.Some? && target.value in live then
      live[target.value := ClaimRecord(cfg, live[target.value], request, raw, placement, now).0]
    else live
  }

  function ConsumedBy(cfg: Config, live: Records, request: Object, now: int): Records {
    map k | k in live :: ConsumeRecord(cfg, live[k], request, now)
  }

  function After(cfg: Config, records: Records, step: Step): Records {
    var live := Live(cfg, records, step.now);
    match step.call
    case Advertise(body, raw) => AdvertisedBy(cfg, live, body, raw, step.now)
    case Search(request, placement) => Searched(cfg, live, request, placement, step.now)
    case Claim(request, raw, placement, target) => ClaimedAt(cfg, live, request, raw, placement, target, step.now)
    case Consume(request) => ConsumedBy(cfg, live, request, step.now)
    case Look => live
  }

  function RecordsAfter(cfg: Config, records: Records, run: seq<Step>): Records {
    if run == [] then records
    else After(cfg, RecordsAfter(cfg, records, run[..|run| - 1]), run[|run| - 1])
  }

  // ---------------------------------------------------------------------------------------------
  // What every call keeps

  ghost predicate RecordOk(cfg: Config, k: string, r: Record) {
    && k == RecordKey(r.advertisement)
    && (r.state == Advertised || r.state == Preparing ==> r.claim == map[] && r.rawClaim == "")
    && (r.state == Preparing ==>
          cfg.seamlessCoop && r.preparationRequester >= 0 && Elsewhere(cfg, r.advertisement, r.hostPlacement))
    && (!cfg.seamlessCoop ==> r.hostPlacement == "")
  }

  ghost predicate Inv(cfg: Config, records: Records) {
    forall k :: k in records ==> RecordOk(cfg, k, records[k])
  }

  ghost predicate NoneStale(cfg: Config, records: Records, now: int) {
    forall k :: k in records ==> !Expired(cfg, records[k], now)
  }

  ghost predicate Good(cfg: Config, k: string, r: Record, now: int) {
    RecordOk(cfg, k, r) && !Expired(cfg, r, now)
  }

  lemma AdvertiseGood(cfg: Config, was: Option<Record>, body: Object, raw: Bytes, now: int)
    requires SettingsOk(cfg) && (was.Some? ==> RecordOk(cfg, RecordKey(body), was.value))
    ensures Good(cfg, RecordKey(body), AdvertiseRecord(cfg, was, body, raw, now).0, now)
  {
    hide RecordKey, HostPlacementMap;
  }

  lemma SearchGood(cfg: Config, k: string, r: Record, request: Object, placement: Bytes, now: int)
    requires SettingsOk(cfg) && Good(cfg, k, r, now)
    ensures Good(cfg, k, SearchRecord(cfg, r, request, placement, now), now)
  {
    hide MatchesSearch, RecordKey, HostPlacementMap;
  }

  lemma ClaimGood(cfg: Config, k: string, r: Record, request: Object, raw: Bytes, placement: Bytes, now: int)
    requires SettingsOk(cfg) && Good(cfg, k, r, now)
    ensures Good(cfg, k, ClaimRecord(cfg, r, request, raw, placement, now).0, now)
  {
    hide RecordKey, HostPlacementMap;
  }

  lemma ConsumeGood(cfg: Config, k: string, r: Record, request: Object, now: int)
    requires SettingsOk(cfg) && Good(cfg, k, r, now)
    ensures Good(cfg, k, ConsumeRecord(cfg, r, request, now), now)
  {
    hide RecordKey, HostPlacementMap, Removes;
  }

  /** Every call keeps the record invariant, and leaves no record older than its state allows,
      whatever the clock did. */
  lemma CallKeepsInv(cfg: Config, records: Records, step: Step)
    requires SettingsOk(cfg) && Inv(cfg, records)
    ensures Inv(cfg, After(cfg, records, step))
    ensures NoneStale(cfg, After(cfg, records, step), step.now)
  {
    hide RecordOk, AdvertiseRecord, SearchRecord, ClaimRecord, ConsumeRecord, Expired;
    var live, now, after := Live(cfg, records, step.now), step.now, After(cfg, records, step);
    forall k | k in after
      ensures Good(cfg, k, after[k], now)
    {
      match step.call
      case Advertise(body, raw) =>
        AdvertiseGood(cfg, LookUp(live, RecordKey(body)), body, raw, now);
      case Search(request, placement) =>
        SearchGood(cfg, k, live[k], request, placement, now);
      case Claim(request, raw, placement, target) =>
        if target == Some(k) {
          ClaimGood(cfg, k, live[k], request, raw, placement, now);
        }
      case Consume(request) =>
        ConsumeGood(cfg, k, live[k], request, now);
      case Look =>
    }
  }

  lemma {:induction false} RunKeepsInv(cfg: Config, records: Records, run: seq<Step>)
    requires SettingsOk(cfg) && Inv(cfg, records)
    ensures Inv(cfg, RecordsAfter(cfg, records, run))
    ensures run != [] ==> NoneStale(cfg, RecordsAfter(cfg, records, run), run[|run| - 1].now)
    decreases |run|
  {
    hide After;
    if run != [] {
      RunKeepsInv(cfg, records, run[..|run| - 1]);
      CallKeepsInv(cfg, RecordsAfter(cfg, records, run[..|run| - 1]), run[|run| - 1]);
    }
  }

  // ---------------------------------------------------------------------------------------------
  // A claim is exclusive until it is released

  predicate Held(records: Records, k: string) {
    k in records && (records[k].state == Claimed || records[k].state == Delivered)
  }

  function Claimant(r: Record): int {
    Integer(r.claim, "UserId", -1)
  }

  /** The call finds the record expired, or removes it. */
  predicate Releases(cfg: Config, r: Record, step: Step) {
    || Expired(cfg, r, step.now)
    || (step.call.Consume? && Removes(r, step.call.request) && !Retains(cfg, r, step.call.request))
  }

  lemma AdvertiseHolds(cfg: Config, r: Record, body: Object, raw: Bytes, now: int)
    requires r.state == Claimed || r.state == Delivered
    ensures var after := AdvertiseRecord(cfg, Some(r), body, raw, now).0;
      (after.state == Claimed || after.state == Delivered) && after.claim == r.claim && after.rawClaim == r.rawClaim
  {
    hide HostPlacementMap;
  }

  lemma ClaimHolds(cfg: Config, r: Record, request: Object, raw: Bytes, placement: Bytes, now: int)
    requires r.state == Claimed || r.state == Delivered
    ensures var after := ClaimRecord(cfg, r, request, raw, placement, now).0;
      && (after.state == Claimed || after.state == Delivered)
      && Claimant(after) == Claimant(r)
      && (!cfg.seamlessCoop ==> after == r)
  {
  }

  /** One call: a claimed record stays claimed exactly when the call does not release it, and then the
      claiming user is the same; outside seamless mode the claim itself is the same. */
  lemma HeldUntilReleased(cfg: Config, records: Records, step: Step, k: string)
    requires Held(records, k)
    ensures Held(After(cfg, records, step), k) <==> !Releases(cfg, records[k], step)
    ensures Held(After(cfg, records, step), k) ==> Claimant(After(cfg, records, step)[k]) == Claimant(records[k])
    ensures Held(After(cfg, records, step), k) && !cfg.seamlessCoop ==>
      && After(cfg, records, step)[k].claim == records[k].claim
      && After(cfg, records, step)[k].rawClaim == records[k].rawClaim
  {
    hide RecordKey, HostPlacementMap, MatchesSearch, Expired, Removes, AdvertiseRecord, ClaimRecord, Integer;
    var r := records[k];
    if Expired(cfg, r, step.now) {
      ExpiredIsGone(cfg, records, step, k);
    } else {
      match step.call
      case Advertise(body, raw) =>
        AdvertiseHolds(cfg, r, body, raw, step.now);
      case Claim(request, raw, placement, target) =>
        ClaimHolds(cfg, r, request, raw, placement, step.now);
      case _ =>
    }
  }

  lemma ExpiredIsGone(cfg: Config, records: Records, step: Step, k: string)
    requires k in records && Expired(cfg, records[k], step.now)
    ensures !Held(After(cfg, records, step), k)
  {
    hide RecordKey, HostPlacementMap, MatchesSearch, Expired, Removes, ClaimRecord;
  }

  /** No call of the run releases the record. */
  ghost predicate NeverReleased(cfg: Config, records: Records, run: seq<Step>, k: string)
    decreases |run|
  {
    run != [] ==>
      var before := RecordsAfter(cfg, records, run[..|run| - 1]);
      && NeverReleased(cfg, records, run[..|run| - 1], k)
      && k in before && !Releases(cfg, before[k], run[|run| - 1])
  }

  /** Over every run, from the claim until a call consumes the record or finds it expired, the record
      stays claimed by the same user, and outside seamless mode by the same claim. */
  lemma {:induction false} ClaimIsExclusive(cfg: Config, records: Records, run: seq<Step>, k: string)
    requires Held(records, k) && NeverReleased(cfg, records, run, k)
    ensures var end := RecordsAfter(cfg, records, run);
      && Held(end, k) && Claimant(end[k]) == Claimant(records[k])
      && (!cfg.seamlessCoop ==> end[k].claim == records[k].claim && end[k].rawClaim == records[k].rawClaim)
    decreases |run|
  {
    hide After, Releases, Claimant;
    if run != [] {
      ClaimIsExclusive(cfg, records, run[..|run| - 1], k);
      HeldUntilReleased(cfg, RecordsAfter(cfg, records, run[..|run| - 1]), run[|run| - 1], k);
    }
  }

  /** The call accepts a claim on the record under k. */
  predicate AcceptsClaim(cfg: Config, records: Records, step: Step, k: string) {
    var live := Live(cfg, records, step.now);
    && step.call.Claim? && step.call.target == Some(k) && k in live
    && ClaimRecord(cfg, live[k], step.call.request, step.call.rawRequest, step.call.placement, step.now).1 == Accepted
  }

  /** From a claim until its release, over every run: a claim by anyone but the claiming user conflicts, and
      changes nothing but the purge. */
  lemma CompetingClaimRefused(cfg: Config, records: Records, run: seq<Step>, step: Step, k: string)
    requires Held(records, k) && NeverReleased(cfg, records, run, k)
    requires step.call.Claim? && step.call.target == Some(k)
    requires Integer(step.call.request, "UserId", -1) != Claimant(records[k])
    ensures var end := RecordsAfter(cfg, records, run);
      && k in end
      && ClaimRecord(cfg, end[k], step.call.request, step.call.rawRequest, step.call.placement, step.now)
           == (end[k], Conflict)
      && After(cfg, end, step) == Live(cfg, end, step.now)
  {
    hide NeverReleased, RecordsAfter, Expired;
    ClaimIsExclusive(cfg, records, run, k);
    var live := Live(cfg, RecordsAfter(cfg, records, run), step.now);
    if k in live {
      assert live[k := live[k]] == live;
    }
  }

  /** And no claim on the record is accepted but the claiming user's own, in seamless mode. */
  lemma {:induction false} OnlyClaimantAccepted(cfg: Config, records: Records, run: seq<Step>, k: string)
    requires Held(records, k) && NeverReleased(cfg, records, run, k)
    ensures forall i :: 0 <= i < |run| && AcceptsClaim(cfg, RecordsAfter(cfg, records, run[..i]), run[i], k) ==>
      cfg.seamlessCoop && Integer(run[i].call.request, "UserId", -1) == Claimant(records[k])
    decreases |run|
  {
    hide RecordsAfter, Releases, Claimant;
    if run != [] {
      var n := |run| - 1;
      OnlyClaimantAccepted(cfg, records, run[..n], k);
      ClaimIsExclusive(cfg, records, run[..n], k);
      if AcceptsClaim(cfg, RecordsAfter(cfg, records, run[..n]), run[n], k) {
        AcceptedIsClaimant(cfg, RecordsAfter(cfg, records, run[..n]), run[n], k);
      }
      forall i | 0 <= i < |run| && AcceptsClaim(cfg, RecordsAfter(cfg, records, run[..i]), run[i], k)
        ensures cfg.seamlessCoop && Integer(run[i].call.request, "UserId", -1) == Claimant(records[k])
      {
        if i < n {
          assert run[..n][..i] == run[..i] && run[..n][i] == run[i];
        }
      }
    }
  }

  lemma AcceptedIsClaimant(cfg: Config, records: Records, step: Step, k: string)
    requires Held(records, k) && AcceptsClaim(cfg, records, step, k)
    ensures cfg.seamlessCoop && Integer(step.call.request, "UserId", -1) == Claimant(records[k])
  {
    hide Expired;
  }

  // ---------------------------------------------------------------------------------------------
  // A delivered claim is the last one accepted

  /** The bytes of the last claim a run from an empty broker accepted on the record under k. */
  function LastClaim(cfg: Config, run: seq<Step>, k: string): Option<Bytes> {
    if run == [] then None
    else if AcceptsClaim(cfg, RecordsAfter(cfg, map[], run[..|run| - 1]), run[|run| - 1], k) then
      Some(run[|run| - 1].call.rawRequest)
    else LastClaim(cfg, run[..|run| - 1], k)
  }

  lemma BecomesHeld(cfg: Config, records: Records, step: Step, k: string)
    requires Held(After(cfg, records, step), k)
    ensures AcceptsClaim(cfg, records, step, k) ==> After(cfg, records, step)[k].rawClaim == step.call.rawRequest
    ensures !AcceptsClaim(cfg, records, step, k) ==>
      Held(records, k) && After(cfg, records, step)[k].rawClaim == records[k].rawClaim
  {
    hide RecordKey, HostPlacementMap, MatchesSearch, Expired, Removes, Integer;
  }

  lemma {:induction false} HeldIsLastClaim(cfg: Config, run: seq<Step>, k: string)
    requires Held(RecordsAfter(cfg, map[], run), k)
    ensures LastClaim(cfg, run, k) == Some(RecordsAfter(cfg, map[], run)[k].rawClaim)
    decreases |run|
  {
    hide After, AcceptsClaim;
    if run != [] {
      var before := RecordsAfter(cfg, map[], run[..|run| - 1]);
      BecomesHeld(cfg, before, run[|run| - 1], k);
      if !AcceptsClaim(cfg, before, run[|run| - 1], k) {
        HeldIsLastClaim(cfg, run[..|run| - 1], k);
      }
    }
  }

  /** Over every run: a pending claim handed to an advertiser is byte for byte the last claim accepted
      on that advertiser's record. */
  lemma PendingClaimIsLastAccepted(cfg: Config, run: seq<Step>, body: Object, raw: Bytes, now: int)
    ensures var live := Live(cfg, RecordsAfter(cfg, map[], run), now);
      var answer := AdvertiseRecord(cfg, LookUp(live, RecordKey(body)), body, raw, now).1;
      && (answer.state == Delivered ==> LastClaim(cfg, run, RecordKey(body)) == Some(answer.pendingClaim))
      && (answer.pendingClaim != "" ==> answer.state == Delivered)
  {
    hide RecordKey, HostPlacementMap, RecordsAfter, LastClaim, Expired;
    var k := RecordKey(body);
    var live := Live(cfg, RecordsAfter(cfg, map[], run), now);
    if AdvertiseRecord(cfg, LookUp(live, k), body, raw, now).1.state == Delivered {
      HeldIsLastClaim(cfg, run, k);
    }
  }

  // ---------------------------------------------------------------------------------------------
  // Which moves between states a call can make

  /** The moves a record that has not expired may make in one call. */
  predicate Move(from: State, to: State) {
    match from
    case Advertised => to != Delivered
    case Preparing => to != Delivered
    case Claimed => to == Claimed || to == Delivered || to == Consumed
    case Delivered => to == Delivered || to == Claimed || to == Consumed
    case Consumed => to == Consumed || to == Advertised
  }

  lemma RecordMoves(cfg: Config, r: Record, step: Step)
    ensures step.call.Advertise? ==>
      Move(r.state, AdvertiseRecord(cfg, Some(r), step.call.body, step.call.rawBody, step.now).0.state)
    ensures step.call.Search? ==>
      Move(r.state, SearchRecord(cfg, r, step.call.request, step.call.placement, step.now).state)
    ensures step.call.Claim? ==>
      Move(r.state, ClaimRecord(cfg, r, step.call.request, step.call.rawRequest, step.call.placement, step.now).0.state)
    ensures step.call.Consume? ==> Move(r.state, ConsumeRecord(cfg, r, step.call.request, step.now).state)
  {
    hide HostPlacementMap, MatchesSearch, Removes, Integer, Elsewhere;
  }

  lemma OnlyTheseMoves(cfg: Config, records: Records, step: Step, k: string)
    requires Inv(cfg, records) && k in records && !Expired(cfg, records[k], step.now)
    ensures k in After(cfg, records, step) && Move(records[k].state, After(cfg, records, step)[k].state)
  {
    hide RecordKey, Expired, Move, AdvertiseRecord, SearchRecord, ClaimRecord, ConsumeRecord, RecordOk;
    RecordMoves(cfg, records[k], step);
    SameStateMoves(records[k].state);
  }

  lemma SameStateMoves(state: State)
    ensures Move(state, state)
  {
  }

  /** Preparation ends in an open advertisement exactly when the owner advertises from the map it was
      sent to. */
  lemma PreparationEnds(cfg: Config, records: Records, step: Step, k: string)
    requires Inv(cfg, records) && k in records && !Expired(cfg, records[k], step.now)
    requires records[k].state == Preparing
    ensures HostPlacementMap(cfg, records[k].hostPlacement).Some?
    ensures After(cfg, records, step)[k].state == Advertised <==>
      && step.call.Advertise? && RecordKey(step.call.body) == k
      && Integer(step.call.body, "AreaId", -1) == HostPlacementMap(cfg, records[k].hostPlacement).value
  {
    hide RecordKey, HostPlacementMap, MatchesSearch, Expired, Removes, Integer;
  }

  /** A claim is delivered exactly when the owner advertises, in seamless mode only once the placement
      names no map or the map advertised from. */
  lemma ClaimDelivers(cfg: Config, records: Records, step: Step, k: string)
    requires Inv(cfg, records) && k in records && !Expired(cfg, records[k], step.now)
    requires records[k].state == Claimed
    ensures After(cfg, records, step)[k].state == Delivered <==>
      && step.call.Advertise? && RecordKey(step.call.body) == k
      && (cfg.seamlessCoop ==>
            var hostMap := HostPlacementMap(cfg, records[k].hostPlacement);
            hostMap.None? || hostMap.value == Integer(step.call.body, "AreaId", -1))
  {
    hide RecordKey, HostPlacementMap, MatchesSearch, Expired, Removes, Integer;
  }

  /** A search lists open advertisements and, in seamless mode, the records its own user has claimed;
      never one that is being prepared. */
  lemma ListedIsOpenOrOwn(cfg: Config, k: string, r: Record, request: Object, placement: Bytes, now: int)
    requires RecordOk(cfg, k, r) && Listed(cfg, r, request, placement)
    ensures r.state != Preparing && r.state != Consumed
    ensures r.state != Advertised ==> cfg.seamlessCoop && Claimant(r) == Integer(request, "UserId", -1)
    ensures Integer(r.advertisement, "UserId", -1) != Integer(request, "UserId", -1)
    ensures SearchRecord(cfg, r, request, placement, now) == r
  {
    hide HostPlacementMap, RecordKey;
  }

  /** The calls that end a record before its time: a removal that names it; in seamless mode one that is
      forced, while the record is active. One that is kept is renewed. */
  lemma RemovalKeepsActive(cfg: Config, records: Records, step: Step, k: string)
    requires Inv(cfg, records) && k in records && !Expired(cfg, records[k], step.now)
    requires records[k].state != Consumed
    ensures var r, after := records[k], After(cfg, records, step);
      && k in after
      && (after[k].state == Consumed <==>
            && step.call.Consume? && Removes(r, step.call.request)
            && (cfg.seamlessCoop && IsSeamlessActive(r.state) ==> Forced(step.call.request)))
      && (step.call.Consume? && Removes(r, step.call.request) && after[k].state != Consumed ==>
            after[k] == r.(updatedAtMs := step.now))
  {
    hide RecordKey, Expired, Removes, Forced, IsSeamlessActive, RecordOk, AdvertiseRecord, SearchRecord, ClaimRecord;
    OthersNeverEnd(cfg, records[k], step);
  }

  lemma OthersNeverEnd(cfg: Config, r: Record, step: Step)
    requires r.state != Consumed
    ensures step.call.Advertise? ==>
      AdvertiseRecord(cfg, Some(r), step.call.body, step.call.rawBody, step.now).0.state != Consumed
    ensures step.call.Search? ==>
      SearchRecord(cfg, r, step.call.request, step.call.placement, step.now).state != Consumed
    ensures step.call.Claim? ==>
      ClaimRecord(cfg, r, step.call.request, step.call.rawRequest, step.call.placement, step.now).0.state != Consumed
  {
    hide HostPlacementMap, MatchesSearch, Integer, Elsewhere;
  }

  /** No call of the run finds the record expired or forces a removal of it. */
  ghost predicate NeverForced(cfg: Config, records: Records, run: seq<Step>, k: string)
    decreases |run|
  {
    run != [] ==>
      var before, last := RecordsAfter(cfg, records, run[..|run| - 1]), run[|run| - 1];
      && NeverForced(cfg, records, run[..|run| - 1], k)
      && k in before && !Expired(cfg, before[k], last.now)
      && !(last.call.Consume? && Removes(before[k], last.call.request) && Forced(last.call.request))
  }

  /** In seamless mode, over every run: a claim outlives every removal that is not forced. */
  lemma {:induction false} ClaimOutlivesRemovals(cfg: Config, records: Records, run: seq<Step>, k: string)
    requires cfg.seamlessCoop && Held(records, k) && NeverForced(cfg, records, run, k)
    ensures NeverReleased(cfg, records, run, k)
    ensures var end := RecordsAfter(cfg, records, run);
      Held(end, k) && Claimant(end[k]) == Claimant(records[k])
    decreases |run|
  {
    hide After, Claimant, Expired, Removes, Forced;
    if run != [] {
      ClaimOutlivesRemovals(cfg, records, run[..|run| - 1], k);
    }
    ClaimIsExclusive(cfg, records, run, k);
  }

  // ---------------------------------------------------------------------------------------------
  // The broker object

  datatype ClaimResult = ClaimResult(status: ClaimStatus, targetSessionId: string, targetUserId: int)

  datatype ConsumeResult = ConsumeResult(consumed: nat, retained: nat, pendingHostPlacement: Bytes)

  function Consumable(cfg: Config, live: Records, request: Object): set<string> {
    set k | k in live && Removes(live[k], request) && !Retains(cfg, live[k], request)
  }

  function Retainable(cfg: Config, live: Records, request: Object): set<string> {
    set k | k in live && Retains(cfg, live[k], request)
  }

  /** Consumed and retained records together are the live records the request names. */
  lemma RemovalCounts(cfg: Config, live: Records, request: Object)
    ensures |Consumable(cfg, live, request)| + |Retainable(cfg, live, request)|
         == |set k | k in live && Removes(live[k], request)|
  {
    var all := set k | k in live && Removes(live[k], request);
    assert all == Consumable(cfg, live, request) + Retainable(cfg, live, request);
    assert Consumable(cfg, live, request) !! Retainable(cfg, live, request);
  }

  /** The keys a search lists. */
  function ListedKeys(cfg: Config, live: Records, request: Object, placement: Bytes): set<string> {
    set k | k in live && Listed(cfg, live[k], request, placement)
  }

  /** The order in which a search may list them: each once, newest first; equal ages in any order. */
  ghost predicate NewestFirst(live: Records, keys: set<string>, order: seq<string>) {
    && (forall k :: k in order <==> k in keys)
    && (forall i :: 0 <= i < |order| ==> order[i] in live)
    && (forall i, j :: 0 <= i < j < |order| ==>
          && order[i] != order[j]
          && live[order[i]].updatedAtMs >= live[order[j]].updatedAtMs)
  }

  function MaxCount(request: Object): nat {
    Max(0, ToInt32(Integer(request, "GetMaxCount", 20)))
  }

  /** The running result of a removal after one more record. */
  function TallyWith(cfg: Config, r: Record, request: Object, t: ConsumeResult): ConsumeResult {
    if Retains(cfg, r, request) then
      var placement := if r.hostPlacement != "" then r.hostPlacement else t.pendingHostPlacement;
      ConsumeResult(t.consumed, t.retained + 1, placement)
    else if Removes(r, request) then t.(consumed := t.consumed + 1)
    else t
  }

  /** The placement is that of one of the kept records that have one, when any has. */
  ghost predicate PlacementOf(live: Records, kept: set<string>, placement: Bytes) {
    if placement == "" then forall k :: k in kept && k in live ==> live[k].hostPlacement == ""
    else exists k :: k in kept && k in live && live[k].hostPlacement == placement
  }

  ghost predicate Tallied(cfg: Config, live: Records, request: Object, seen: set<string>, t: ConsumeResult) {
    && t.consumed == |Consumable(cfg, live, request) * seen|
    && t.retained == |Retainable(cfg, live, request) * seen|
    && PlacementOf(live, Retainable(cfg, live, request) * seen, t.pendingHostPlacement)
  }

  lemma NothingTallied(cfg: Config, live: Records, request: Object)
    ensures Tallied(cfg, live, request, {}, ConsumeResult(0, 0, ""))
  {
    assert Consumable(cfg, live, request) * {} == {} && Retainable(cfg, live, request) * {} == {};
  }

  lemma TallyOne(cfg: Config, live: Records, request: Object, seen: set<string>, t: ConsumeResult, k: string)
    requires k in live && k !in seen && Tallied(cfg, live, request, seen, t)
    ensures Tallied(cfg, live, request, seen + {k}, TallyWith(cfg, live[k], request, t))
  {
    hide Removes, Retains;
    var gone, kept := Consumable(cfg, live, request), Retainable(cfg, live, request);
    AddOne(gone, seen, k);
    AddOne(kept, seen, k);
    KeptIsRemoved(cfg, live[k], request);
    PlacementOne(live, kept, seen, k, t.pendingHostPlacement);
  }

  lemma KeptIsRemoved(cfg: Config, r: Record, request: Object)
    ensures Retains(cfg, r, request) ==> Removes(r, request)
  {
  }

  lemma AddOne(all: set<string>, seen: set<string>, k: string)
    requires k !in seen
    ensures |all * (seen + {k})| == |all * seen| + if k in all then 1 else 0
  {
    assert all * (seen + {k}) == if k in all then all * seen + {k} else all * seen;
  }

  lemma PlacementOne(live: Records, kept: set<string>, seen: set<string>, k: string, placement: Bytes)
    requires k in live && PlacementOf(live, kept * seen, placement)
    ensures PlacementOf(live, kept * (seen + {k}),
      if k in kept && live[k].hostPlacement != "" then live[k].hostPlacement else placement)
  {
    if placement != "" {
      var w :| w in kept * seen && w in live && live[w].hostPlacement == placement;
      assert w in kept * (seen + {k});
    }
    assert k in kept ==> k in kept * (seen + {k});
  }

  lemma TallyAll(cfg: Config, live: Records, request: Object, t: ConsumeResult)
    requires Tallied(cfg, live, request, live.Keys, t)
    ensures t.consumed == |Consumable(cfg, live, request)| && t.retained == |Retainable(cfg, live, request)|
    ensures PlacementOf(live, Retainable(cfg, live, request), t.pendingHostPlacement)
  {
    assert Consumable(cfg, live, request) * live.Keys == Consumable(cfg, live, request);
    assert Retainable(cfg, live, request) * live.Keys == Retainable(cfg, live, request);
  }

  class Broker {
    const cfg: Config
    var records: Records

    constructor (options: Options, lib: Library)
      ensures cfg == Settings(options, lib) && SettingsOk(cfg)
      ensures records == map[]
    {
      cfg := Settings(options, lib);
      records := map[];
    }

    method PurgeExpired(now: int)
      modifies this
      ensures records == Live(cfg, old(records), now)
    {
      var was := records;
      var pending := records.Keys;
      while pending != {}
        invariant pending <= was.Keys
        invariant records == map k | k in was && (k in pending || !Expired(cfg, was[k], now)) :: was[k]
        decreases pending
      {
        var k :| k in pending;
        pending := pending - {k};
        if Expired(cfg, records[k], now) {
          records := records - {k};
        }
      }
    }

    method Advertise(body: Object, rawBody: Bytes, now: int) returns (answer: Answer)
      modifies this
      ensures records == After(cfg, old(records), Step(Call.Advertise(body, rawBody), now))
      ensures var live := Live(cfg, old(records), now);
        answer == AdvertiseRecord(cfg, LookUp(live, RecordKey(body)), body, rawBody, now).1
    {
      PurgeExpired(now);
      var key := RecordKey(body);
      if key !in records || records[key].state == Consumed {
        records := records[key := Record(Advertised, body, rawBody, map[], "", "", -1, now)];
        return Answer(Advertised, "", "");
      }
      var r := records[key].(advertisement := body, rawAdvertisement := rawBody, updatedAtMs := now);
      records := records[key := r];
      if r.state == Preparing {
        var hostMap := HostPlacementMap(cfg, r.hostPlacement);
        if hostMap.Some? && Integer(body, "AreaId", -1) != hostMap.value {
          return Answer(Preparing, "", r.hostPlacement);
        }
        r := r.(state := Advertised, preparationRequester := -1);
      }
      if r.state == Claimed {
        var hostMap := HostPlacementMap(cfg, r.hostPlacement);
        if cfg.seamlessCoop && hostMap.Some? && Integer(body, "AreaId", -1) != hostMap.value {
          return Answer(Claimed, "", r.hostPlacement);
        }
        r := r.(state := Delivered);
      }
      records := records[key := r];
      if r.state == Delivered {
        return Answer(Delivered, r.rawClaim, r.hostPlacement);
      }
      return Answer(r.state, "", "");
    }

    /** `order` is the order in which the listed records came. */
    method Search(request: Object, now: int, placement: Bytes) returns (results: seq<Bytes>, ghost order: seq<string>)
      modifies this
      ensures records == After(cfg, old(records), Step(Call.Search(request, placement), now))
      ensures var live := Live(cfg, old(records), now);
        && NewestFirst(live, ListedKeys(cfg, live, request, placement), order)
        && |results| == Min(|order|, MaxCount(request))
        && forall i :: 0 <= i < |results| ==> order[i] in live && results[i] == Shown(cfg, live[order[i]], request)
    {
      hide MatchesSearch, Shown, HostPlacementMap, Expired;
      PurgeExpired(now);
      var live := records;
      var found: set<string> := {};
      var pending := records.Keys;
      while pending != {}
        invariant pending <= live.Keys
        invariant records == map k | k in live ::
          if k in pending then live[k] else SearchRecord(cfg, live[k], request, placement, now)
        invariant found == ListedKeys(cfg, live, request, placement) - pending
        decreases pending
      {
        var k :| k in pending;
        pending := pending - {k};
        var r := records[k];
        if SendsAway(cfg, r, request, placement) {
          records := records[k := r.(state := Preparing, hostPlacement := placement,
            preparationRequester := Integer(request, "UserId", -1), updatedAtMs := now)];
        } else if Listed(cfg, r, request, placement) {
          found := found + {k};
        }
      }
      assert found == ListedKeys(cfg, live, request, placement);
      var sorted := SortNewestFirst(live, found);
      order := sorted;
      results := FirstShown(live, sorted, request);
    }

    /** As many of the candidates as the request asks for. */
    method FirstShown(live: Records, sorted: seq<string>, request: Object) returns (results: seq<Bytes>)
      requires forall k :: k in sorted ==> k in live
      ensures |results| == Min(|sorted|, MaxCount(request))
      ensures forall i :: 0 <= i < |results| ==> results[i] == Shown(cfg, live[sorted[i]], request)
    {
      hide Shown;
      results := [];
      var next := 0;
      while next < |sorted| && |results| < MaxCount(request)
        invariant 0 <= next <= |sorted| && |results| == next <= Max(0, MaxCount(request))
        invariant forall i :: 0 <= i < |results| ==> results[i] == Shown(cfg, live[sorted[i]], request)
      {
        var shown := ShowTo(live[sorted[next]], request);
        results := results + [shown];
        next := next + 1;
      }
    }

    method ShowTo(r: Record, request: Object) returns (shown: Bytes)
      ensures shown == Shown(cfg, r, request)
    {
      shown := JsonText.PrepareAdvertisementForSearch(r.rawAdvertisement, RewriteFor(cfg, r, request));
    }

    /** `target` is the record the claim was about. */
    method Claim(request: Object, rawRequest: Bytes, now: int, placement: Bytes)
      returns (result: ClaimResult, ghost target: Option<string>)
      modifies this
      ensures var live := Live(cfg, old(records), now);
        && IsClaimTarget(live, request, target)
        && records == After(cfg, old(records), Step(Call.Claim(request, rawRequest, placement, target), now))
        && result == if target.None? || live[target.value].state == Consumed then ClaimResult(NotFound, "", -1)
                     else ClaimResult(ClaimRecord(cfg, live[target.value], request, rawRequest, placement, now).1,
                                      TextOf(live[target.value].advertisement, "SessionId"),
                                      Integer(live[target.value].advertisement, "UserId", -1))
    {
      hide Expired;
      PurgeExpired(now);
      var found := FindTarget(request);
      target := found;
      if found.None? || records[found.value].state == Consumed {
        assert records == Live(cfg, old(records), now);
        return ClaimResult(NotFound, "", -1), found;
      }
      var key := found.value;
      var r := records[key];
      var session, user := TextOf(r.advertisement, "SessionId"), Integer(r.advertisement, "UserId", -1);
      if r.state == Claimed || r.state == Delivered {
        if r.claim == request {
          return ClaimResult(AlreadyClaimed, session, user), found;
        }
        var previous, requester := Integer(r.claim, "UserId", -1), Integer(request, "UserId", -1);
        if !cfg.seamlessCoop || requester < 0 || previous != requester {
          return ClaimResult(Conflict, session, user), found;
        }
      }
      var kept := "";
      if cfg.seamlessCoop && placement != "" && |placement| <= MAX_HOST_PLACEMENT_SIZE
         && '\r' !in placement && '\n' !in placement {
        kept := placement;
      }
      records := records[key := r.(state := Claimed, claim := request, rawClaim := rawRequest,
        hostPlacement := kept, updatedAtMs := now)];
      return ClaimResult(Accepted, session, user), found;
    }

    /** The two searches for the record a claim is about. */
    method FindTarget(request: Object) returns (target: Option<string>)
      ensures IsClaimTarget(records, request, target)
    {
      target := None;
      var session := TextOf(request, "SessionId");
      if session != "" {
        var pending := records.Keys;
        while pending != {} && target.None?
          invariant pending <= records.Keys
          invariant target.None? ==> forall k :: k in records && k !in pending ==> !HasSession(records[k], session)
          invariant target.Some? ==> target.value in records && HasSession(records[target.value], session)
          decreases pending
        {
          var k :| k in pending;
          pending := pending - {k};
          if HasSession(records[k], session) {
            target := Some(k);
          }
        }
      }
      if target.None? && OptionalInteger(request, "TargetUserId").Some? {
        var pending := records.Keys;
        while pending != {}
          invariant pending <= records.Keys
          invariant target.None? ==> forall k :: k in records && k !in pending ==> !HasTarget(records[k], request)
          invariant target.Some? ==>
            && target.value in records && HasTarget(records[target.value], request)
            && forall k :: k in records && k !in pending && HasTarget(records[k], request) ==>
                 records[k].updatedAtMs <= records[target.value].updatedAtMs
          decreases pending
        {
          var k :| k in pending;
          pending := pending - {k};
          if HasTarget(records[k], request) {
            if target.None? || records[k].updatedAtMs > records[target.value].updatedAtMs {
              target := Some(k);
            }
          }
        }
      }
    }

    /** The body of the loop of a consume: one record kept, dropped or passed over, and counted. */
    method ConsumeOne(k: string, request: Object, now: int, before: ConsumeResult) returns (result: ConsumeResult)
      requires k in records
      modifies this`records
      ensures records == old(records)[k := ConsumeRecord(cfg, old(records)[k], request, now)]
      ensures result == TallyWith(cfg, old(records)[k], request, before)
    {
      hide Removes, Forced, IsSeamlessActive;
      result := before;
      var r := records[k];
      if Removes(r, request) {
        if cfg.seamlessCoop && !Forced(request) && IsSeamlessActive(r.state) {
          records := records[k := r.(updatedAtMs := now)];
          result := result.(retained := result.retained + 1);
          if r.hostPlacement != "" {
            result := result.(pendingHostPlacement := r.hostPlacement);
          }
        } else {
          records := records[k := r.(state := Consumed, updatedAtMs := now)];
          result := result.(consumed := result.consumed + 1);
        }
      }
    }

    method Consume(request: Object, now: int) returns (result: ConsumeResult)
      modifies this
      ensures records == After(cfg, old(records), Step(Call.Consume(request), now))
      ensures var live := Live(cfg, old(records), now);
        && result.consumed == |Consumable(cfg, live, request)|
        && result.retained == |Retainable(cfg, live, request)|
        && PlacementOf(live, Retainable(cfg, live, request), result.pendingHostPlacement)
    {
      hide Expired, Tallied, Consumable, Retainable, PlacementOf, ConsumeRecord, TallyWith, Removes, Retains,
           AdvertisedBy, Searched, ClaimedAt;
      PurgeExpired(now);
      NothingTallied(cfg, records, request);
      var live := records;
      ghost var seen: set<string> := {};
      result := ConsumeResult(0, 0, "");
      var pending := records.Keys;
      while pending != {}
        invariant pending <= live.Keys && seen == live.Keys - pending
        invariant records == map k | k in live ::
          if k in pending then live[k] else ConsumeRecord(cfg, live[k], request, now)
        invariant Tallied(cfg, live, request, seen, result)
        decreases pending
      {
        var k :| k in pending;
        pending := pending - {k};
        TallyOne(cfg, live, request, seen, result, k);
        result := ConsumeOne(k, request, now, result);
        seen := seen + {k};
      }
      assert seen == live.Keys;
      TallyAll(cfg, live, request, result);
    }

    method StateFor(sessionId: string, userId: int, now: int) returns (state: Option<State>)
      modifies this
      ensures records == After(cfg, old(records), Step(Look, now))
      ensures var k := KeyOf(sessionId, userId);
        state == if k in records then Some(records[k].state) else None
    {
      PurgeExpired(now);
      var key := KeyOf(sessionId, userId);
      if key !in records {
        return None;
      }
      return Some(records[key].state);
    }

    method Size(now: int) returns (n: nat)
      modifies this
      ensures records == After(cfg, old(records), Step(Look, now)) && n == |records|
    {
      PurgeExpired(now);
      n := |records|;
    }
  }

  /** std::sort by age, newest first: any order among equals will do. */
  method SortNewestFirst(live: Records, keys: set<string>) returns (order: seq<string>)
    requires keys <= live.Keys
    ensures NewestFirst(live, keys, order)
  {
    order := [];
    var rest := keys;
    while rest != {}
      invariant rest <= keys
      invariant NewestFirst(live, keys - rest, order)
      invariant forall i, k :: 0 <= i < |order| && k in rest ==> live[order[i]].updatedAtMs >= live[k].updatedAtMs
      decreases rest
    {
      var k := NewestOf(live, rest);
      assert k !in order;
      order := order + [k];
      rest := rest - {k};
    }
  }

  method NewestOf(live: Records, keys: set<string>) returns (newest: string)
    requires keys != {} && keys <= live.Keys
    ensures newest in keys && forall k :: k in keys ==> live[k].updatedAtMs <= live[newest].updatedAtMs
  {
    newest :| newest in keys;
    var rest := keys - {newest};
    while rest != {}
      invariant rest <= keys && newest in keys
      invariant forall k :: k in keys && k !in rest ==> live[k].updatedAtMs <= live[newest].updatedAtMs
      decreases rest
    {
      var k :| k in rest;
      rest := rest - {k};
      if live[k].updatedAtMs > live[newest].updatedAtMs {
        newest := k;
      }
    }
  }
}
