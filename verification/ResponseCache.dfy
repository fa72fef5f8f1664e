/** The two cache tiers over runs (internal/cache/cache.go, exact.go, semantic.go; the entry that
    internal/api/chat.go stores). Times are nanoseconds. The digest is taken as injective, so a key
    is the text that is digested; Qdrant is any search that respects its filter. */
module ResponseCache {
  import opened Prelude
  import opened CacheKey
  import opened Text

  datatype Entry = Entry(
    completion: string, model: string, upstreamModel: string, provider: string, temp: real, maxTokens: int,
    promptTokens: int, completionTokens: int, createdAt: int, prompt: string)

  datatype Config = Config(
    enabled: bool, maxTemperature: real, exactTTL: int,
    semantic: bool, threshold: real, maxTempDelta: real, semanticTTL: int)

  type Vector = seq<real>

  datatype BypassReason = Cached | Disabled | Header | Temperature

  datatype Status = ExactHit | SemanticHit | Miss

  datatype Result = Result(status: Status, entry: Option<Entry>, similarity: real, vector: Option<Vector>)

  /** A key in Redis: the entry, and when it goes, if it does. */
  datatype Slot = Slot(entry: Entry, expires: Option<int>)

  /** A Qdrant point's payload. */
  datatype Point = Point(tenant: string, model: string, entry: Entry)

  /** What becomes of one write: done; not done; or done and reported as failed. */
  datatype Fate = Applied | Refused | AnswerLost

  /** What the exact tier's read meets: the store's answer, no answer, or bytes that do not decode. */
  datatype Read = Answered | Unreachable | Corrupt

  /** What the search meets; a match may lack a decodable completion. */
  datatype Search = Failed | NoMatch | Match(id: string, score: real, decodable: bool)

  /** One Store call: whose, for which request, when, and the entry as stored. */
  datatype StoreRecord = StoreRecord(tenant: string, req: Request, at: int, entry: Entry)

  function Abs(x: real): real { if x < 0.0 then -x else x }

  /** strings.EqualFold, with the same case folding as the alias normalization. */
  predicate EqualFold(rd: Rendering, a: string, b: string) { Lower(rd, a) == Lower(rd, b) }

  /** The guard between similarity and serving. */
  predicate Compatible(cfg: Config, rd: Rendering, req: Request, e: Entry, now: int) {
    && EqualFold(rd, e.model, req.model)
    && Abs(e.temp - Temp(req)) <= cfg.maxTempDelta
    && !(MaxTok(req) > 0 && e.completionTokens > MaxTok(req))
    && !(cfg.semanticTTL > 0 && now - e.createdAt * SECOND > cfg.semanticTTL)
  }

  function Cacheable(cfg: Config, req: Request, noCache: bool): BypassReason {
    if !cfg.enabled then Disabled
    else if noCache then Header
    else if Temp(req) > cfg.maxTemperature then Temperature
    else Cached
  }

  function Key(rd: Rendering, tenant: string, req: Request): string { Digested(rd, tenant, req) }

  function PointID(tenant: string, model: string, prompt: string): string {
    tenant + [NUL] + model + [NUL] + prompt
  }

  /** The entry a point carries: built from the request's alias and prompt and the stored fields. */
  function PayloadEntry(req: Request, e: Entry): Entry {
    e.(model := req.model, prompt := PromptText(req.messages))
  }

  // ---------------------------------------------------------------- what a hit may be

  /** Some Store of the log put `e` under the key of `req`, and it is not past its time. */
  ghost predicate FromExactStore(
      cfg: Config, rd: Rendering, log: seq<StoreRecord>, tenant: string, req: Request, e: Entry, now: int)
  {
    exists i :: 0 <= i < |log| && ExactSource(cfg, rd, log[i], tenant, req, e, now)
  }

  ghost predicate ExactSource(
      cfg: Config, rd: Rendering, r: StoreRecord, tenant: string, req: Request, e: Entry, now: int)
  {
    && r.entry == e && Interchangeable(rd, r.tenant, r.req, tenant, req)
    && (cfg.exactTTL > 0 ==> now < r.at + cfg.exactTTL)
  }

  /** Some Store of the log, of the same tenant and alias, made the entry under compatible
      parameters, and not too long ago. */
  ghost predicate FromSemanticStore(
      cfg: Config, log: seq<StoreRecord>, tenant: string, req: Request, e: Entry, now: int)
  {
    exists i :: 0 <= i < |log| && SemanticSource(cfg, log[i], tenant, req, e, now)
  }

  ghost predicate SemanticSource(cfg: Config, r: StoreRecord, tenant: string, req: Request, e: Entry, now: int) {
    && e == PayloadEntry(r.req, r.entry)
    && r.tenant == tenant && r.req.model == req.model
    && Abs(r.entry.temp - Temp(req)) <= cfg.maxTempDelta
    && (MaxTok(req) > 0 ==> r.entry.completionTokens <= MaxTok(req))
    && (cfg.semanticTTL > 0 ==> now - r.at <= cfg.semanticTTL)
  }

  /** What every result of a lookup satisfies. */
  ghost predicate Justified(
      cfg: Config, rd: Rendering, log: seq<StoreRecord>, tenant: string, req: Request, r: Result, now: int)
  {
    match r.status
    case ExactHit => r.entry.Some? && FromExactStore(cfg, rd, log, tenant, req, r.entry.value, now)
    case SemanticHit =>
      && cfg.semantic && r.entry.Some? && r.similarity >= cfg.threshold
      && FromSemanticStore(cfg, log, tenant, req, r.entry.value, now)
    case Miss => r.entry == None
  }

  // ---------------------------------------------------------------- where stored entries come from

  ghost predicate SlotFrom(cfg: Config, rd: Rendering, k: string, s: Slot, r: StoreRecord) {
    && k == Key(rd, r.tenant, r.req) && s.entry == r.entry
    && (cfg.exactTTL > 0 ==> s.expires == Some(r.at + cfg.exactTTL))
  }

  ghost predicate SlotExplained(cfg: Config, rd: Rendering, k: string, s: Slot, log: seq<StoreRecord>) {
    exists i :: 0 <= i < |log| && SlotFrom(cfg, rd, k, s, log[i])
  }

  ghost predicate ExactFrom(cfg: Config, rd: Rendering, exact: map<string, Slot>, log: seq<StoreRecord>) {
    forall k :: k in exact ==> SlotExplained(cfg, rd, k, exact[k], log)
  }

  ghost predicate PointFrom(p: Point, r: StoreRecord) {
    && p.tenant == r.tenant && p.model == r.req.model && p.entry == PayloadEntry(r.req, r.entry)
  }

  ghost predicate PointExplained(p: Point, log: seq<StoreRecord>) {
    exists i :: 0 <= i < |log| && PointFrom(p, log[i])
  }

  ghost predicate PointsFrom(points: map<string, Point>, log: seq<StoreRecord>) {
    forall id :: id in points ==> PointExplained(points[id], log)
  }

  /** An entry's stamp, in whole seconds, is not after its Store. */
  ghost predicate Stamped(log: seq<StoreRecord>) {
    forall i :: 0 <= i < |log| ==> log[i].entry.createdAt * SECOND <= log[i].at
  }

  lemma LogGrows(
      cfg: Config, rd: Rendering, exact: map<string, Slot>, points: map<string, Point>, log: seq<StoreRecord>,
      r: StoreRecord)
    requires ExactFrom(cfg, rd, exact, log) && PointsFrom(points, log) && Stamped(log)
    requires r.entry.createdAt * SECOND <= r.at
    ensures ExactFrom(cfg, rd, exact, log + [r]) && PointsFrom(points, log + [r]) && Stamped(log + [r])
  {
    hide SlotFrom, PointFrom;
    var more := log + [r];
    assert forall i :: 0 <= i < |log| ==> more[i] == log[i];
    forall k | k in exact
      ensures SlotExplained(cfg, rd, k, exact[k], more)
    {
      var i :| 0 <= i < |log| && SlotFrom(cfg, rd, k, exact[k], log[i]);
      assert SlotFrom(cfg, rd, k, exact[k], more[i]);
    }
    forall id | id in points
      ensures PointExplained(points[id], more)
    {
      var i :| 0 <= i < |log| && PointFrom(points[id], log[i]);
      assert PointFrom(points[id], more[i]);
    }
  }

  lemma ExactGrows(
      cfg: Config, rd: Rendering, exact: map<string, Slot>, log: seq<StoreRecord>, k: string, s: Slot, i: nat)
    requires ExactFrom(cfg, rd, exact, log) && i < |log| && SlotFrom(cfg, rd, k, s, log[i])
    ensures ExactFrom(cfg, rd, exact[k := s], log)
  {
    hide SlotFrom;
  }

  lemma ExactShrinks(cfg: Config, rd: Rendering, exact: map<string, Slot>, log: seq<StoreRecord>, k: string)
    requires ExactFrom(cfg, rd, exact, log)
    ensures ExactFrom(cfg, rd, exact - {k}, log)
  {
    hide SlotExplained;
  }

  lemma PointsGrow(points: map<string, Point>, log: seq<StoreRecord>, id: string, p: Point, i: nat)
    requires PointsFrom(points, log) && i < |log| && PointFrom(p, log[i])
    ensures PointsFrom(points[id := p], log)
  {
    hide PointFrom;
  }

  lemma ExactIsJustified(
      cfg: Config, rd: Rendering, exact: map<string, Slot>, log: seq<StoreRecord>, tenant: string, req: Request,
      now: int)
    requires ExactFrom(cfg, rd, exact, log)
    requires var k := Key(rd, tenant, req); k in exact && (exact[k].expires == None || now < exact[k].expires.value)
    ensures FromExactStore(cfg, rd, log, tenant, req, exact[Key(rd, tenant, req)].entry, now)
  {
    hide Interchangeable, Digested;
    var k := Key(rd, tenant, req);
    assert SlotExplained(cfg, rd, k, exact[k], log);
    var i :| 0 <= i < |log| && SlotFrom(cfg, rd, k, exact[k], log[i]);
    DigestTellsRequest(rd, log[i].tenant, log[i].req, tenant, req);
    assert ExactSource(cfg, rd, log[i], tenant, req, exact[k].entry, now);
  }

  lemma SemanticIsJustified(
      cfg: Config, rd: Rendering, points: map<string, Point>, log: seq<StoreRecord>, tenant: string, req: Request,
      id: string, now: int)
    requires PointsFrom(points, log) && Stamped(log)
    requires id in points && points[id].tenant == tenant && points[id].model == req.model
    requires Compatible(cfg, rd, req, points[id].entry, now)
    ensures FromSemanticStore(cfg, log, tenant, req, points[id].entry, now)
  {
    hide EqualFold;
    assert PointExplained(points[id], log);
    var i :| 0 <= i < |log| && PointFrom(points[id], log[i]);
    assert SemanticSource(cfg, log[i], tenant, req, points[id].entry, now);
  }

  // ---------------------------------------------------------------- what the tiers keep

  /** What happened to a tier: a write that took effect, a key's removal, a point's write. */
  datatype Change =
    | Wrote(tenant: string, req: Request, at: int, entry: Entry)
    | Dropped(key: string)
    | Placed(tenant: string, req: Request, at: int, entry: Entry)

  ghost predicate Touches(rd: Rendering, c: Change, k: string) {
    (c.Wrote? && Key(rd, c.tenant, c.req) == k) || (c.Dropped? && c.key == k)
  }

  /** Change `i` is the last one to touch the key it wrote. */
  ghost predicate Standing(rd: Rendering, history: seq<Change>, i: nat) {
    && i < |history| && history[i].Wrote?
    && var k := Key(rd, history[i].tenant, history[i].req);
       forall j: nat :: i < j < |history| ==> !Touches(rd, history[j], k)
  }

  ghost predicate SlotOf(cfg: Config, s: Slot, c: Change)
    requires c.Wrote?
  {
    s.entry == c.entry && s.expires == if cfg.exactTTL > 0 then Some(c.at + cfg.exactTTL) else None
  }

  /** Nothing written to the exact tier is lost. */
  ghost predicate ExactKept(cfg: Config, rd: Rendering, exact: map<string, Slot>, history: seq<Change>) {
    forall i: nat :: Standing(rd, history, i) ==>
      var k := Key(rd, history[i].tenant, history[i].req); k in exact && SlotOf(cfg, exact[k], history[i])
  }

  /** Free of NUL, the tenant, alias and prompt of a point are determined by its id: the same prompt
      overwrites its own point and no other. */
  lemma PointIDTells(t: string, m: string, p: string, u: string, n: string, q: string)
    requires Free([t, m, p], NUL) && Free([u, n, q], NUL)
    ensures PointID(t, m, p) == PointID(u, n, q) <==> t == u && m == n && p == q
  {
    assert PointID(t, m, p) == Join([t, m, p], NUL) by { ThreeJoined(t, m, p); }
    assert PointID(u, n, q) == Join([u, n, q], NUL) by { ThreeJoined(u, n, q); }
    JoinTellsPieces([t, m, p], [u, n, q], NUL);
    PiecesFree([t, m, p], NUL);
    PiecesFree([u, n, q], NUL);
    hide Join, Pieces;
    assert [t, m, p] == [u, n, q] <==> t == u && m == n && p == q by {
      var x, y := [t, m, p], [u, n, q];
      if x == y { assert x[0] == y[0] && x[1] == y[1] && x[2] == y[2]; }
    }
  }

  lemma ThreeJoined(t: string, m: string, p: string)
    ensures PointID(t, m, p) == Join([t, m, p], NUL)
  {
    assert [t, m, p][1..] == [m, p] && [m, p][1..] == [p];
    JoinCons(t, [m, p], NUL);
    JoinCons(m, [p], NUL);
    assert [t] + [m, p] == [t, m, p] && [m] + [p] == [m, p];
    assert t + [NUL] + m + [NUL] + p == t + [NUL] + (m + [NUL] + p);
  }

  function PlaceOf(c: Change): string
    requires c.Placed?
  {
    PointID(c.tenant, c.req.model, PromptText(c.req.messages))
  }

  /** Change `i` is the last one to write its point. */
  ghost predicate StandingPoint(history: seq<Change>, i: nat) {
    && i < |history| && history[i].Placed?
    && forall j: nat :: i < j < |history| && history[j].Placed? ==> PlaceOf(history[j]) != PlaceOf(history[i])
  }

  /** The point that `c` placed: its entry goes under the request's alias and prompt. */
  ghost predicate PointOf(p: Point, c: Change)
    requires c.Placed?
  {
    && p.tenant == c.tenant && p.model == c.req.model
    && p.entry == c.entry.(model := c.req.model, prompt := PromptText(c.req.messages))
  }

  /** Nothing written to the semantic tier is lost. */
  ghost predicate PointsKept(points: map<string, Point>, history: seq<Change>) {
    forall i: nat :: StandingPoint(history, i) ==>
      PlaceOf(history[i]) in points && PointOf(points[PlaceOf(history[i])], history[i])
  }

  lemma StandingBefore(rd: Rendering, history: seq<Change>, c: Change)
    ensures forall i: nat :: i < |history| && Standing(rd, history + [c], i) ==>
              && Standing(rd, history, i) && (history + [c])[i] == history[i]
              && !Touches(rd, c, Key(rd, history[i].tenant, history[i].req))
    ensures forall i: nat :: i < |history| && StandingPoint(history + [c], i) ==>
              && StandingPoint(history, i) && (history + [c])[i] == history[i]
              && (c.Placed? ==> PlaceOf(c) != PlaceOf(history[i]))
  {
    hide Touches, PlaceOf, Key;
    var more := history + [c];
    assert more[|history|] == c;
    assert forall i :: 0 <= i < |history| ==> more[i] == history[i];
    forall i: nat | i < |history| && Standing(rd, more, i)
      ensures Standing(rd, history, i) && !Touches(rd, c, Key(rd, history[i].tenant, history[i].req))
    {
      var k := Key(rd, history[i].tenant, history[i].req);
      forall j: nat | i < j < |history|
        ensures !Touches(rd, history[j], k)
      {
        assert !Touches(rd, more[j], k);
      }
      assert !Touches(rd, more[|history|], k);
    }
    forall i: nat | i < |history| && StandingPoint(more, i)
      ensures StandingPoint(history, i) && (c.Placed? ==> PlaceOf(c) != PlaceOf(history[i]))
    {
      forall j: nat | i < j < |history| && history[j].Placed?
        ensures PlaceOf(history[j]) != PlaceOf(history[i])
      {
        assert more[j].Placed?;
      }
      assert more[|history|].Placed? ==> PlaceOf(more[|history|]) != PlaceOf(history[i]);
    }
  }

  lemma KeptAfterWrite(
      cfg: Config, rd: Rendering, exact: map<string, Slot>, points: map<string, Point>, history: seq<Change>, c: Change, s: Slot)
    requires ExactKept(cfg, rd, exact, history) && PointsKept(points, history)
    requires c.Wrote? && SlotOf(cfg, s, c)
    ensures ExactKept(cfg, rd, exact[Key(rd, c.tenant, c.req) := s], history + [c])
    ensures PointsKept(points, history + [c])
  {
    StandingBefore(rd, history, c);
    hide Standing, StandingPoint, SlotOf, PointOf, PlaceOf, Key;
    KeptIndices(rd, history, c);
  }

  /** A standing change is an old one or the new one. */
  lemma KeptIndices(rd: Rendering, history: seq<Change>, c: Change)
    ensures forall i: nat :: Standing(rd, history + [c], i) ==>
              if i < |history| then (history + [c])[i].Wrote? else i == |history| && c.Wrote? && (history + [c])[i] == c
    ensures forall i: nat :: StandingPoint(history + [c], i) ==>
              if i < |history| then (history + [c])[i].Placed? else i == |history| && c.Placed? && (history + [c])[i] == c
  {}

  lemma KeptAfterDrop(
      cfg: Config, rd: Rendering, exact: map<string, Slot>, points: map<string, Point>, history: seq<Change>, k: string)
    requires ExactKept(cfg, rd, exact, history) && PointsKept(points, history)
    ensures ExactKept(cfg, rd, exact - {k}, history + [Dropped(k)])
    ensures PointsKept(points, history + [Dropped(k)])
  {
    StandingBefore(rd, history, Dropped(k));
    KeptIndices(rd, history, Dropped(k));
    hide Standing, StandingPoint, SlotOf, PointOf, PlaceOf, Key;
  }

  lemma KeptAfterPlace(
      cfg: Config, rd: Rendering, exact: map<string, Slot>, points: map<string, Point>, history: seq<Change>, c: Change, p: Point)
    requires ExactKept(cfg, rd, exact, history) && PointsKept(points, history)
    requires c.Placed? && PointOf(p, c)
    ensures ExactKept(cfg, rd, exact, history + [c])
    ensures PointsKept(points[PlaceOf(c) := p], history + [c])
  {
    StandingBefore(rd, history, c);
    KeptIndices(rd, history, c);
    hide Standing, StandingPoint, SlotOf, PointOf, PlaceOf, Key;
  }

  // ---------------------------------------------------------------- the two tiers

  /** The exact tier after `e` is written under the request's key. */
  function WithSlot(
      cfg: Config, rd: Rendering, exact: map<string, Slot>, tenant: string, req: Request, e: Entry, now: int,
      fate: Fate): map<string, Slot>
  {
    if fate.Refused? then exact
    else exact[Key(rd, tenant, req) := Slot(e, if cfg.exactTTL > 0 then Some(now + cfg.exactTTL) else None)]
  }

  /** The semantic tier after `e` is written to the point of the request's prompt. */
  function WithPoint(cfg: Config, points: map<string, Point>, tenant: string, req: Request, e: Entry,
                     vec: Option<Vector>, embedded: Option<Vector>, fate: Fate): map<string, Point> {
    if !cfg.semantic || (vec == None && embedded == None) || fate.Refused? then points
    else points[PointID(tenant, req.model, PromptText(req.messages)) := Point(tenant, req.model, PayloadEntry(req, e))]
  }

  /** Another request's answer, or the removal of the key, took the place of what `req` would get. */
  ghost predicate Replaces(rd: Rendering, c: Change, tenant: string, req: Request) {
    || (c.Wrote? && Interchangeable(rd, c.tenant, c.req, tenant, req))
    || (c.Dropped? && c.key == Key(rd, tenant, req))
  }

  /** Change `i` is the latest to answer `req`, and it is not past its time. */
  ghost predicate Current(
      cfg: Config, rd: Rendering, history: seq<Change>, i: nat, tenant: string, req: Request, now: int)
  {
    && i < |history| && history[i].Wrote?
    && Interchangeable(rd, history[i].tenant, history[i].req, tenant, req)
    && (forall j: nat :: i < j < |history| ==> !Replaces(rd, history[j], tenant, req))
    && (cfg.exactTTL > 0 ==> now < history[i].at + cfg.exactTTL)
  }

  /** The entry may stand in for an answer to the request, by temperature, length and age. */
  ghost predicate InBounds(cfg: Config, req: Request, e: Entry, now: int) {
    var temp := if req.temperature.Some? then req.temperature.value else 1.0;
    && temp - cfg.maxTempDelta <= e.temp <= temp + cfg.maxTempDelta
    && (req.maxTokens.Some? && req.maxTokens.value > 0 ==> e.completionTokens <= req.maxTokens.value)
    && (cfg.semanticTTL > 0 ==> now <= e.createdAt * SECOND + cfg.semanticTTL)
  }

  /** What was written is found again: in the exact tier by every interchangeable request, and in
      the semantic tier by every search that comes upon it, if it is in bounds. */
  ghost predicate Found(
      cfg: Config, rd: Rendering, history: seq<Change>, tenant: string, req: Request, now: int,
      read: Read, embedded: Option<Vector>, search: Search, r: Result)
  {
    && (read.Answered? ==>
          forall i: nat :: Current(cfg, rd, history, i, tenant, req, now) ==>
            r.status == ExactHit && r.entry == Some(history[i].entry))
    && (search.Match? ==>
          forall i: nat :: StandingPoint(history, i) && PlaceOf(history[i]) == search.id ==>
            var c := history[i];
            && c.tenant == tenant && c.req.model == req.model
            && (r.status == SemanticHit <==>
                  && r.status != ExactHit && cfg.semantic && embedded.Some?
                  && search.decodable && search.score >= cfg.threshold && InBounds(cfg, req, c.entry, now))
            && (r.status == SemanticHit ==>
                  && r.entry == Some(c.entry.(model := req.model, prompt := PromptText(c.req.messages)))
                  && r.similarity == search.score))
  }

  /** What `Lookup` answers, in terms of what it meets. */
  ghost predicate Decides(
      cfg: Config, present: Option<Entry>, point: Option<Entry>, req: Request, now: int,
      read: Read, embedded: Option<Vector>, search: Search, r: Result)
  {
    && (r.status == ExactHit <==> read.Answered? && present.Some?)
    && (r.status == ExactHit ==> r.entry == present)
    && (r.status == SemanticHit <==>
          && r.status != ExactHit && cfg.semantic && embedded.Some?
          && point.Some? && search.Match? && search.decodable && search.score >= cfg.threshold
          && InBounds(cfg, req, point.value, now))
    && (r.status == SemanticHit ==> r.entry == point && r.similarity == search.score)
  }

  lemma CurrentIsStanding(
      cfg: Config, rd: Rendering, exact: map<string, Slot>, history: seq<Change>, i: nat, tenant: string, req: Request, now: int)
    requires ExactKept(cfg, rd, exact, history) && Current(cfg, rd, history, i, tenant, req, now)
    ensures var k := Key(rd, tenant, req);
            && k in exact && exact[k].entry == history[i].entry
            && (exact[k].expires == None || now < exact[k].expires.value)
  {
    hide Interchangeable, Digested;
    var k := Key(rd, tenant, req);
    DigestTellsRequest(rd, history[i].tenant, history[i].req, tenant, req);
    forall j: nat | i < j < |history|
      ensures !Touches(rd, history[j], k)
    {
      assert !Replaces(rd, history[j], tenant, req);
      if history[j].Wrote? { DigestTellsRequest(rd, history[j].tenant, history[j].req, tenant, req); }
    }
    assert Standing(rd, history, i);
  }

  /** For a point of the request's alias the guard is the bounds. */
  lemma AliasesAgree(
      cfg: Config, rd: Rendering, points: map<string, Point>, log: seq<StoreRecord>, req: Request, id: string, now: int)
    requires PointsFrom(points, log) && id in points && points[id].model == req.model
    ensures Compatible(cfg, rd, req, points[id].entry, now) <==> InBounds(cfg, req, points[id].entry, now)
  {
    assert PointExplained(points[id], log);
  }

  lemma KeptIsFound(
      cfg: Config, rd: Rendering, exact: map<string, Slot>, points: map<string, Point>, history: seq<Change>,
      present: Option<Entry>, tenant: string, req: Request, now: int,
      read: Read, embedded: Option<Vector>, search: Search, r: Result)
    requires ExactKept(cfg, rd, exact, history) && PointsKept(points, history)
    requires var k := Key(rd, tenant, req);
             present == if k in exact && (exact[k].expires == None || now < exact[k].expires.value)
                        then Some(exact[k].entry) else None
    requires search.Match? ==> search.id in points && points[search.id].tenant == tenant && points[search.id].model == req.model
    requires Decides(cfg, present, if search.Match? then Some(points[search.id].entry) else None, req, now, read, embedded, search, r)
    ensures Found(cfg, rd, history, tenant, req, now, read, embedded, search, r)
  {
    hide Interchangeable, PlaceOf, Key, PromptText;
    forall i: nat | read.Answered? && Current(cfg, rd, history, i, tenant, req, now)
      ensures r.status == ExactHit && r.entry == Some(history[i].entry)
    {
      CurrentIsStanding(cfg, rd, exact, history, i, tenant, req, now);
    }
  }

  class Cache {
    const cfg: Config
    const rd: Rendering
    var exact: map<string, Slot>
    var points: map<string, Point>
    ghost var log: seq<StoreRecord>
    ghost var history: seq<Change>

    constructor (cfg: Config, rd: Rendering)
      ensures Valid() && log == [] && history == [] && this.cfg == cfg && this.rd == rd
    {
      this.cfg, this.rd := cfg, rd;
      exact, points, log, history := map[], map[], [], [];
    }

    /** Everything in either tier was put there by a Store of the log, and nothing put there is lost. */
    ghost predicate Valid()
      reads this
    {
      && ExactFrom(cfg, rd, exact, log) && PointsFrom(points, log) && Stamped(log)
      && ExactKept(cfg, rd, exact, history) && PointsKept(points, history)
    }

    /** Whether the slot is still there at `now`. */
    function Present(k: string, now: int): bool
      reads this
    {
      k in exact && (exact[k].expires == None || now < exact[k].expires.value)
    }

    /** The outer option is the error; a corrupt slot is evicted. */
    method Get(k: string, now: int, read: Read) returns (r: Option<Option<Entry>>)
      requires Valid()
      modifies this`exact, this`history
      ensures Valid()
      ensures exact == if old(Present(k, now)) && read.Corrupt? then old(exact) - {k} else old(exact)
      ensures history == if old(Present(k, now)) && read.Corrupt? then old(history) + [Dropped(k)] else old(history)
      ensures r == if read.Unreachable? then None
                   else if !old(Present(k, now)) then Some(None)
                   else if read.Corrupt? then None
                   else Some(Some(old(exact)[k].entry))
    {
      hide ExactFrom, PointsFrom, Stamped, ExactKept, PointsKept;
      if read == Unreachable {
        return None;
      }
      if !Present(k, now) {
        return Some(None);
      }
      if read == Corrupt {
        ExactShrinks(cfg, rd, exact, log, k);
        KeptAfterDrop(cfg, rd, exact, points, history, k);
        exact := exact - {k};
        history := history + [Dropped(k)];
        return None;
      }
      return Some(Some(exact[k].entry));
    }

    /** The vector search: at most the best match, if its score reaches the threshold. The outer
        option is the error. */
    method FindSimilar(tenant: string, req: Request, search: Search) returns (r: Option<Option<(Entry, real)>>)
      requires Valid()
      requires RespectsFilter(search, tenant, req.model)
      ensures search.Failed? ==> r == None
      ensures r.Some? && r.value.Some? <==> search.Match? && search.decodable && search.score >= cfg.threshold
      ensures r.Some? && r.value.Some? ==> r.value.value == (points[search.id].entry, search.score)
    {
      match search
      case Failed => return None;
      case NoMatch => return Some(None);
      case Match(id, score, decodable) =>
        if score < cfg.threshold {
          return Some(None);
        }
        if !decodable {
          return None;
        }
        return Some(Some((points[id].entry, score)));
    }

    /** The search returns only stored points of the tenant and alias it was asked for. */
    ghost predicate RespectsFilter(search: Search, tenant: string, model: string)
      reads this
    {
      search.Match? ==> search.id in points && points[search.id].tenant == tenant && points[search.id].model == model
    }

    /** A point that was placed and not overwritten is there for a search of its tenant and alias to
        come upon. */
    lemma PlacedMayMatch(i: nat, score: real, decodable: bool)
      requires Valid() && StandingPoint(history, i)
      ensures RespectsFilter(Match(PlaceOf(history[i]), score, decodable), history[i].tenant, history[i].req.model)
    {
      hide PlaceOf, ExactKept, ExactFrom;
    }

    /** Checks both tiers. Whatever fails, it degrades to a miss: a hit is always justified by an
        earlier Store, and a failed embedding or search is never a semantic hit. */
    method Lookup(tenant: string, req: Request, now: int, read: Read, embedded: Option<Vector>, search: Search)
      returns (r: Result)
      requires Valid() && RespectsFilter(search, tenant, req.model)
      modifies this`exact, this`history
      ensures Valid()
      ensures Justified(cfg, rd, log, tenant, req, r, now)
      ensures Found(cfg, rd, old(history), tenant, req, now, read, embedded, search, r)
      ensures embedded == None || search.Failed? ==> r.status != SemanticHit
      ensures r.status == ExactHit <==> read.Answered? && old(Present(Key(rd, tenant, req), now))
      ensures r.status == SemanticHit <==>
                && r.status != ExactHit && cfg.semantic && embedded.Some?
                && search.Match? && search.decodable && search.score >= cfg.threshold
                && InBounds(cfg, req, points[search.id].entry, now)
      ensures r.vector == if r.status == ExactHit || !cfg.semantic then None else embedded
    {
      hide ExactFrom, PointsFrom, Stamped, ExactKept, PointsKept, FromExactStore, FromSemanticStore;
      hide Compatible, InBounds, Key, Found;
      var k := Key(rd, tenant, req);
      ghost var present := if Present(k, now) then Some(exact[k].entry) else None;
      ghost var point := if search.Match? then Some(points[search.id].entry) else None;
      forall r | Decides(cfg, present, point, req, now, read, embedded, search, r)
        ensures Found(cfg, rd, history, tenant, req, now, read, embedded, search, r)
      {
        KeptIsFound(cfg, rd, exact, points, history, present, tenant, req, now, read, embedded, search, r);
      }
      if search.Match? { AliasesAgree(cfg, rd, points, log, req, search.id, now); }
      var got := Get(k, now, read);
      if got.Some? && got.value.Some? {
        ExactIsJustified(cfg, rd, old(exact), log, tenant, req, now);
        return Result(ExactHit, got.value, 0.0, None);
      }
      if !cfg.semantic {
        return Result(Miss, None, 0.0, None);
      }
      if embedded == None {
        return Result(Miss, None, 0.0, None);
      }
      var found := FindSimilar(tenant, req, search);
      if found == None || found.value == None {
        return Result(Miss, None, 0.0, embedded);
      }
      var (e, score) := found.value.value;
      if !Compatible(cfg, rd, req, e, now) {
        return Result(Miss, None, 0.0, embedded);
      }
      SemanticIsJustified(cfg, rd, points, log, tenant, req, search.id, now);
      return Result(SemanticHit, Some(e), score, embedded);
    }

    /** The first half of Store: stamps the entry and writes the exact tier. */
    method StoreExact(tenant: string, req: Request, entry: Entry, now: int, fate: Fate) returns (stamped: Entry)
      requires Valid()
      modifies this`exact, this`log, this`history
      ensures Valid()
      ensures stamped == entry.(createdAt := now / SECOND)
      ensures log == old(log) + [StoreRecord(tenant, req, now, stamped)]
      ensures exact == WithSlot(cfg, rd, old(exact), tenant, req, stamped, now, fate)
      ensures history == old(history) + (if fate.Refused? then [] else [Wrote(tenant, req, now, stamped)])
    {
      hide ExactFrom, PointsFrom, Stamped, ExactKept, PointsKept, Key;
      stamped := entry.(createdAt := now / SECOND);
      ghost var i, r := |log|, StoreRecord(tenant, req, now, stamped);
      assert now / SECOND * SECOND <= now;
      LogGrows(cfg, rd, exact, points, log, r);
      log := log + [r];
      var k := Key(rd, tenant, req);
      var slot := Slot(stamped, if cfg.exactTTL > 0 then Some(now + cfg.exactTTL) else None);
      if fate != Refused {
        ExactGrows(cfg, rd, exact, log, k, slot, i);
        KeptAfterWrite(cfg, rd, exact, points, history, Wrote(tenant, req, now, stamped), slot);
        exact := exact[k := slot];
        history := history + [Wrote(tenant, req, now, stamped)];
      }
    }

    /** The second half: the semantic tier, if it is on and a vector is at hand or can be had. */
    method StoreSemantic(
        tenant: string, req: Request, stamped: Entry, at: int, vec: Option<Vector>, embedded: Option<Vector>,
        fate: Fate)
      requires Valid() && StoreRecord(tenant, req, at, stamped) in log
      modifies this`points, this`history
      ensures Valid()
      ensures points == WithPoint(cfg, old(points), tenant, req, stamped, vec, embedded, fate)
      ensures history == old(history)
                         + (if !cfg.semantic || (vec == None && embedded == None) || fate.Refused? then []
                            else [Placed(tenant, req, at, stamped)])
    {
      hide ExactFrom, PointsFrom, Stamped, ExactKept, PointsKept, PromptText;
      if !cfg.semantic {
        return;
      }
      if vec == None && embedded == None {
        return;
      }
      var prompt := PromptText(req.messages);
      if fate != Refused {
        var p := Point(tenant, req.model, PayloadEntry(req, stamped));
        ghost var i :| 0 <= i < |log| && log[i] == StoreRecord(tenant, req, at, stamped);
        PointsGrow(points, log, PointID(tenant, req.model, prompt), p, i);
        KeptAfterPlace(cfg, rd, exact, points, history, Placed(tenant, req, at, stamped), p);
        points := points[PointID(tenant, req.model, prompt) := p];
        history := history + [Placed(tenant, req, at, stamped)];
      }
    }

    /** The background write after a served answer: the entry the handler builds, then both tiers. */
    method StoreAsync(tenant: string, req: Request, upstream: string, provider: string, text: string,
                      promptTokens: int, completionTokens: int, now: int, vec: Option<Vector>,
                      embedded: Option<Vector>, exactFate: Fate, semanticFate: Fate)
      requires Valid() && Cacheable(cfg, req, false) == Cached
      modifies this
      ensures Valid()
      ensures text == "" ==> log == old(log) && exact == old(exact) && points == old(points) && history == old(history)
      ensures text != "" ==>
                var e := Entry(text, req.model, upstream, provider, Temp(req), MaxTok(req),
                               promptTokens, completionTokens, now / SECOND, "");
                && log == old(log) + [StoreRecord(tenant, req, now, e)]
                && exact == WithSlot(cfg, rd, old(exact), tenant, req, e, now, exactFate)
                && points == WithPoint(cfg, old(points), tenant, req, e, vec, embedded, semanticFate)
                && history == old(history)
                     + (if exactFate.Refused? then [] else [Wrote(tenant, req, now, e)])
                     + (if !cfg.semantic || (vec == None && embedded == None) || semanticFate.Refused? then []
                        else [Placed(tenant, req, now, e)])
      ensures Faithful(cfg, old(log)) ==> Faithful(cfg, log)
    {
      hide ExactFrom, PointsFrom, Stamped, ExactKept, PointsKept, WithSlot, WithPoint, PayloadEntry;
      if text == "" {
        return;
      }
      var entry := Entry(text, req.model, upstream, provider, Temp(req), MaxTok(req),
                         promptTokens, completionTokens, 0, "");
      ghost var was := log;
      var stamped := StoreExact(tenant, req, entry, now, exactFate);
      assert log[|was|] == StoreRecord(tenant, req, now, stamped);
      StoreSemantic(tenant, req, stamped, now, vec, embedded, semanticFate);
    }

    method Delete(k: string)
      requires Valid()
      modifies this`exact, this`history
      ensures Valid() && exact == old(exact) - {k} && history == old(history) + [Dropped(k)]
    {
      hide ExactFrom, PointsFrom, Stamped, ExactKept, PointsKept;
      ExactShrinks(cfg, rd, exact, log, k);
      KeptAfterDrop(cfg, rd, exact, points, history, k);
      exact := exact - {k};
      history := history + [Dropped(k)];
    }

    /** The handler's use of the cache: nothing is looked up for a request that must not be cached. */
    method Serve(
        tenant: string, req: Request, noCache: bool, now: int, read: Read, embedded: Option<Vector>, search: Search)
      returns (r: Option<Result>)
      requires Valid() && RespectsFilter(search, tenant, req.model)
      modifies this`exact, this`history
      ensures Valid()
      ensures r == None <==> !cfg.enabled || noCache
                             || (if req.temperature.Some? then req.temperature.value else 1.0) > cfg.maxTemperature
      ensures r == None ==> exact == old(exact) && history == old(history)
      ensures r.Some? ==> Justified(cfg, rd, log, tenant, req, r.value, now)
      ensures r.Some? ==> Found(cfg, rd, old(history), tenant, req, now, read, embedded, search, r.value)
    {
      if Cacheable(cfg, req, noCache) != Cached {
        return None;
      }
      var result := Lookup(tenant, req, now, read, embedded, search);
      return Some(result);
    }
  }

  /** Every stored entry was made by the handler, for a request it may cache. */
  ghost predicate Faithful(cfg: Config, log: seq<StoreRecord>) {
    forall i :: 0 <= i < |log| ==>
      && log[i].entry.temp == Temp(log[i].req) && log[i].entry.maxTokens == MaxTok(log[i].req)
      && log[i].entry.model == log[i].req.model && log[i].entry.completion != ""
      && Temp(log[i].req) <= cfg.maxTemperature
  }

  /** In a run where all entries come from the handler, a hit is an answer to a cacheable request
      of the same tenant: one with the same digest input, or one for the same alias whose own
      temperature is within MaxTempDelta. */
  lemma HitAnswersLikeRequest(
      cfg: Config, rd: Rendering, log: seq<StoreRecord>, tenant: string, req: Request, r: Result, now: int)
      returns (i: int)
    requires Faithful(cfg, log) && Justified(cfg, rd, log, tenant, req, r, now) && r.status != Miss
    ensures 0 <= i < |log| && log[i].tenant == tenant && r.entry.value.completion == log[i].entry.completion != ""
    ensures Temp(log[i].req) <= cfg.maxTemperature
    ensures r.status == ExactHit ==> Digested(rd, tenant, log[i].req) == Digested(rd, tenant, req)
    ensures r.status == SemanticHit ==>
              log[i].req.model == req.model && Abs(Temp(log[i].req) - Temp(req)) <= cfg.maxTempDelta
  {
    if r.status == ExactHit {
      i :| 0 <= i < |log| && ExactSource(cfg, rd, log[i], tenant, req, r.entry.value, now);
      DigestTellsRequest(rd, tenant, log[i].req, tenant, req);
    } else {
      i :| 0 <= i < |log| && SemanticSource(cfg, log[i], tenant, req, r.entry.value, now);
    }
  }
}
