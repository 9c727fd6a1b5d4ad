/** Progressive search and gated browsing of experience cards: the in-memory card store, the session with
    its budgets, and what every sequence of calls keeps. The utility router and the similarity of a card to
    a query are arbitrary functions. */
module AgenticSession {
  import opened Sequences

  datatype Governance = Candidate | Probation | Promoted | Deprecated | Quarantined | Deleted

  /** The words of a compiled execution view. */
  type View = seq<string>

  /** A card version; `descriptors` stands for everything else a search copies from it. */
  datatype Card = Card(key: nat, repository: nat, state: Governance, verified: bool, descriptors: nat, view: View)

  /** What a search returns: the description of a card, without its view. */
  datatype Summary = Summary(key: nat, version: nat, repository: nat, state: Governance, verified: bool,
                             descriptors: nat, similarity: real, margin: real)

  datatype Mode = Off | StaticRelevant | AgenticReference | UtilityGated | Shadow

  datatype Policy = ModePolicy(mode: Mode) | GivenPolicy(id: nat)

  datatype RouterInput = RouterInput(task: nat, trajectory: nat, browsed: seq<nat>, candidate: Summary, policy: Policy)

  /** Whether the router says to use a candidate. */
  const Router: RouterInput -> bool

  const Similarity: (nat, Card) -> real

  /** Rounding for display. */
  const Round: real -> real

  predicate Searchable(s: Governance) { s.Promoted? || s.Probation? }

  function Words(view: View): nat { if view == [] then 1 else |view| }

  // ---------------------------------------------------------------- the store

  /** Cards by organisation and version. */
  type Library = map<(nat, nat), Card>

  datatype Scored = Scored(similarity: real, version: nat, card: Card)

  predicate Eligible(lib: Library, k: (nat, nat), org: nat, repository: nat) {
    k in lib && k.0 == org && Searchable(lib[k].state) && lib[k].repository == repository
  }

  /** The eligible cards, in the order they were added. */
  function Scan(lib: Library, order: seq<(nat, nat)>, org: nat, repository: nat, query: nat): seq<Scored> {
    if order == [] then []
    else var last := order[|order| - 1];
         Scan(lib, order[..|order| - 1], org, repository, query)
         + (if Eligible(lib, last, org, repository)
            then [Scored(Similarity(query, lib[last]), last.1, lib[last])] else [])
  }

  predicate RanksBefore(x: Scored, y: Scored) {
    x.similarity > y.similarity || (x.similarity == y.similarity && x.version <= y.version)
  }

  function BestFirst(): (Scored, Scored) -> bool { (x: Scored, y: Scored) => RanksBefore(x, y) }

  /** Where a slice that ends at `k` ends; a negative `k` counts from the end. */
  function SliceEnd(k: int, n: nat): (e: nat)
    ensures e <= n
  {
    if k > n then n else if k >= 0 then k else if n + k >= 0 then n + k else 0
  }

  function MarginAt(ranked: seq<Scored>, i: nat): real
    requires i < |ranked|
  {
    if i + 1 < |ranked| then ranked[i].similarity - ranked[i + 1].similarity else ranked[i].similarity
  }

  function Summarize(x: Scored, margin: real): Summary {
    Summary(x.card.key, x.version, x.card.repository, x.card.state, x.card.verified, x.card.descriptors,
            Round(x.similarity), Round(margin))
  }

  lemma {:induction false} ScanIs(lib: Library, order: seq<(nat, nat)>, org: nat, repository: nat, query: nat, x: Scored)
    ensures x in Scan(lib, order, org, repository, query) <==>
            (org, x.version) in order && Eligible(lib, (org, x.version), org, repository)
            && x.card == lib[(org, x.version)] && x.similarity == Similarity(query, x.card)
  {
    if order != [] {
      var last := order[|order| - 1];
      ScanIs(lib, order[..|order| - 1], org, repository, query, x);
      assert order == order[..|order| - 1] + [last];
      assert last.0 == org ==> last == (org, last.1);
    }
  }

  /** `c` describes the card ranked `i`-th, with its lead over the next; the last leads by its similarity. */
  ghost predicate Describes(c: Summary, ranked: seq<Scored>, i: int)
    requires 0 <= i < |ranked|
  {
    var x := ranked[i];
    && c.key == x.card.key && c.version == x.version && c.repository == x.card.repository && c.state == x.card.state
    && c.verified == x.card.verified && c.descriptors == x.card.descriptors && c.similarity == Round(x.similarity)
    && c.margin == Round(if i + 1 < |ranked| then x.similarity - ranked[i + 1].similarity else x.similarity)
  }

  /** `out` describes the first `topK` of the ranked cards, or all but the last -`topK`. */
  ghost predicate IsSearch(ranked: seq<Scored>, topK: int, out: seq<Summary>) {
    && |out| == (if topK > |ranked| then |ranked| else if topK >= 0 then topK
                 else if |ranked| + topK >= 0 then |ranked| + topK else 0)
    && forall i :: 0 <= i < |out| ==> Describes(out[i], ranked, i)
  }

  class InMemoryExperienceStore {
    var byVersion: Library
    var order: seq<(nat, nat)>

    constructor ()
      ensures byVersion == map[] && order == []
    {
      byVersion := map[];
      order := [];
    }

    method Add(org: nat, version: nat, card: Card)
      modifies this
      ensures byVersion == old(byVersion)[(org, version) := card] && order == old(order) + [(org, version)]
    {
      byVersion := byVersion[(org, version) := card];
      order := order + [(org, version)];
    }

    /** Describes the best of the eligible cards, with their margins to the next. */
    method Search(org: nat, repository: nat, query: nat, topK: int) returns (out: seq<Summary>)
      requires forall k <- order :: k in byVersion
      ensures IsSearch(Ranked(byVersion, order, org, repository, query), topK, out)
    {
      var scored: seq<Scored> := [];
      for i := 0 to |order|
        invariant scored == Scan(byVersion, order[..i], org, repository, query)
      {
        var k := order[i];
        assert order[..i + 1][..i] == order[..i];
        var card := byVersion[k];
        if k.0 == org && Searchable(card.state) && card.repository == repository {
          scored := scored + [Scored(Similarity(query, card), k.1, card)];
        }
      }
      TakeAll(order);
      out := Describe(Sort(scored, BestFirst()), topK);
    }

    method Describe(ranked: seq<Scored>, topK: int) returns (out: seq<Summary>)
      ensures IsSearch(ranked, topK, out)
    {
      out := [];
      for rank := 0 to SliceEnd(topK, |ranked|)
        invariant |out| == rank && forall i :: 0 <= i < rank ==> Describes(out[i], ranked, i)
      {
        out := out + [Summarize(ranked[rank], MarginAt(ranked, rank))];
      }
    }
  }

  /** The eligible cards, by similarity and then version. */
  function Ranked(lib: Library, order: seq<(nat, nat)>, org: nat, repository: nat, query: nat): seq<Scored> {
    Sort(Scan(lib, order, org, repository, query), BestFirst())
  }

  lemma {:induction false} ScanLength(lib: Library, order: seq<(nat, nat)>, org: nat, repository: nat, query: nat)
    ensures |Scan(lib, order, org, repository, query)| == |Where(order, k => Eligible(lib, k, org, repository))|
  {
    var eligible := (k: (nat, nat)) => Eligible(lib, k, org, repository);
    if order == [] {
      assert Where(order, eligible) == {};
    } else {
      var last := |order| - 1;
      ScanLength(lib, order[..last], org, repository, query);
      WhereLast(order[..last], order[last], eligible);
      assert order == order[..last] + [order[last]];
    }
  }

  /** The ranking holds every promoted or probationary card of the organisation and repository, as it is in the store,
      and nothing else; those with the higher similarity come first, then the lower version. */
  lemma RankedHolds(lib: Library, order: seq<(nat, nat)>, org: nat, repository: nat, query: nat)
    ensures var ranked := Ranked(lib, order, org, repository, query);
            && (forall i, j :: 0 <= i < j < |ranked| ==>
                  ranked[i].similarity > ranked[j].similarity
                  || (ranked[i].similarity == ranked[j].similarity && ranked[i].version <= ranked[j].version))
            && (forall x :: x in ranked <==>
                  (org, x.version) in order && (org, x.version) in lib && x.card == lib[(org, x.version)]
                  && (x.card.state.Promoted? || x.card.state.Probation?) && x.card.repository == repository
                  && x.similarity == Similarity(query, x.card))
  {
    var scanned := Scan(lib, order, org, repository, query);
    SortSorts(scanned, BestFirst());
    SameElements(Sort(scanned, BestFirst()), scanned);
    forall x { ScanIs(lib, order, org, repository, query, x); }
    var ranked := Ranked(lib, order, org, repository, query);
    assert forall i, j :: 0 <= i < j < |ranked| ==> BestFirst()(ranked[i], ranked[j]);
  }

  /** ... once per addition. */
  lemma RankedLength(lib: Library, order: seq<(nat, nat)>, org: nat, repository: nat, query: nat)
    ensures |Ranked(lib, order, org, repository, query)|
         == |set i | 0 <= i < |order| && order[i].0 == org && order[i] in lib
                     && (lib[order[i]].state.Promoted? || lib[order[i]].state.Probation?)
                     && lib[order[i]].repository == repository|
  {
    var eligible := (k: (nat, nat)) => Eligible(lib, k, org, repository);
    SortSorts(Scan(lib, order, org, repository, query), BestFirst());
    ScanLength(lib, order, org, repository, query);
    assert Where(order, eligible) == set i | 0 <= i < |order| && order[i].0 == org && order[i] in lib
                                             && (lib[order[i]].state.Promoted? || lib[order[i]].state.Probation?)
                                             && lib[order[i]].repository == repository;
  }

  /** A search only ever describes promoted or probationary cards of the asking organisation and repository, as they
      are in the store. */
  lemma SearchIsolated(lib: Library, order: seq<(nat, nat)>, org: nat, repository: nat, query: nat, topK: int,
                       out: seq<Summary>)
    requires IsSearch(Ranked(lib, order, org, repository, query), topK, out)
    ensures forall c <- out ::
              (org, c.version) in lib && DescribesCard(c, lib[(org, c.version)], repository)
  {
    var ranked := Ranked(lib, order, org, repository, query);
    RankedHolds(lib, order, org, repository, query);
    forall c | c in out
      ensures (org, c.version) in lib && DescribesCard(c, lib[(org, c.version)], repository)
    {
      var i :| 0 <= i < |out| && out[i] == c;
      assert Describes(c, ranked, i) && ranked[i] in ranked;
    }
  }

  ghost predicate DescribesCard(c: Summary, card: Card, repository: nat) {
    c.repository == repository == card.repository && (c.state.Promoted? || c.state.Probation?)
    && c.state == card.state && c.key == card.key && c.verified == card.verified && c.descriptors == card.descriptors
  }

  // ---------------------------------------------------------------- the session

  datatype Config = Config(org: nat, mode: Mode, maxRounds: int, maxBrowse: int, maxTokens: int, maxCards: int)

  datatype Entry =
    | SearchSkipped
    | SearchBudgetExhausted(rounds: nat)
    | Searched(round: nat, versions: seq<nat>)
    | Decided(key: nat, version: nat, use: bool)
    | BrowseShadow(key: nat, wouldUse: bool)
    | BrowseNoop(key: nat)
    | BrowseBudgetExhausted(browsed: nat)
    | BrowseTokenBudgetExhausted(have: nat, need: nat)
    | BrowseInjected(key: nat, version: nat, tokens: nat)

  datatype State = State(rounds: nat, browsed: seq<nat>, tokens: nat, audit: seq<Entry>)

  const FRESH := State(0, [], 0, [])

  datatype Reply = Nothing | Injected(view: View) | NoSuchVersion

  function Log(s: State, e: Entry): State { s.(audit := s.audit + [e]) }

  function Versions(found: seq<Summary>): seq<nat> { seq(|found|, i requires 0 <= i < |found| => found[i].version) }

  function Searching(cfg: Config, s: State, found: seq<Summary>): State {
    if cfg.mode.Off? then Log(s, SearchSkipped)
    else if s.rounds >= cfg.maxRounds then Log(s, SearchBudgetExhausted(s.rounds))
    else Log(s.(rounds := s.rounds + 1), Searched(s.rounds + 1, Versions(found)))
  }

  /** The reference mode approves verified cards in a searchable state; every other mode asks the router. */
  function Uses(cfg: Config, s: State, task: nat, trajectory: nat, c: Summary, policy: Policy): bool {
    if cfg.mode.AgenticReference? then c.verified && Searchable(c.state)
    else Router(RouterInput(task, trajectory, s.browsed, c, policy))
  }

  function Browsing(cfg: Config, lib: Library, s: State, c: Summary, use: bool): (State, Reply) {
    var t := Log(s, Decided(c.key, c.version, use));
    if cfg.mode.Shadow? then (Log(t, BrowseShadow(c.key, use)), Nothing)
    else if !use then (t, Nothing)
    else if c.key in t.browsed then (Log(t, BrowseNoop(c.key)), Nothing)
    else if |t.browsed| >= cfg.maxBrowse || |t.browsed| >= cfg.maxCards then
      (Log(t, BrowseBudgetExhausted(|t.browsed|)), Nothing)
    else if (cfg.org, c.version) !in lib then (t, NoSuchVersion)
    else
      var view := lib[(cfg.org, c.version)].view;
      var cost := Words(view);
      if t.tokens + cost > cfg.maxTokens then (Log(t, BrowseTokenBudgetExhausted(t.tokens, cost)), Nothing)
      else (Log(t.(browsed := t.browsed + [c.key], tokens := t.tokens + cost),
                BrowseInjected(c.key, c.version, cost)),
            Injected(view))
  }

  class SearchSession {
    const config: Config
    var rounds: nat
    var browsedKeys: seq<nat>
    var injectedTokens: nat
    var audit: seq<Entry>

    constructor (config: Config)
      ensures this.config == config && Now() == FRESH
    {
      this.config := config;
      rounds, browsedKeys, injectedTokens, audit := 0, [], 0, [];
    }

    function Now(): State
      reads this
    {
      State(rounds, browsedKeys, injectedTokens, audit)
    }

    method LogEntry(e: Entry)
      modifies this`audit
      ensures audit == old(audit) + [e]
    {
      audit := audit + [e];
    }
  }

  class MemorySearchService {
    const store: InMemoryExperienceStore

    constructor (store: InMemoryExperienceStore)
      ensures this.store == store
    {
      this.store := store;
    }

    method SearchExperiences(session: SearchSession, repository: nat, query: nat, topK: int)
      returns (found: seq<Summary>)
      requires forall k <- store.order :: k in store.byVersion
      modifies session
      ensures session.Now() == Searching(session.config, old(session.Now()), found)
      ensures session.browsedKeys == old(session.browsedKeys) && session.injectedTokens == old(session.injectedTokens)
      ensures if session.config.mode.Off? then
                found == [] && session.rounds == old(session.rounds)
                && session.audit == old(session.audit) + [SearchSkipped]
              else if old(session.rounds) >= session.config.maxRounds then
                found == [] && session.rounds == old(session.rounds)
                && session.audit == old(session.audit) + [SearchBudgetExhausted(session.rounds)]
              else
                && IsSearch(Ranked(store.byVersion, store.order, session.config.org, repository, query), topK, found)
                && session.rounds == old(session.rounds) + 1
                && session.audit == old(session.audit) + [Searched(session.rounds, Versions(found))]
      ensures forall c <- found :: c.repository == repository && (c.state.Promoted? || c.state.Probation?)
                                   && (session.config.org, c.version) in store.byVersion
    {
      if session.config.mode.Off? {
        session.LogEntry(SearchSkipped);
        return [];
      }
      if session.rounds >= session.config.maxRounds {
        session.LogEntry(SearchBudgetExhausted(session.rounds));
        return [];
      }
      session.rounds := session.rounds + 1;
      found := store.Search(session.config.org, repository, query, topK);
      session.LogEntry(Searched(session.rounds, Versions(found)));
      SearchIsolated(store.byVersion, store.order, session.config.org, repository, query, topK, found);
    }

    method Decide(session: SearchSession, task: nat, trajectory: nat, c: Summary, policy: Policy) returns (use: bool)
      modifies session
      ensures use == Uses(session.config, old(session.Now()), task, trajectory, c, policy)
      ensures use <==> if session.config.mode.AgenticReference?
                       then c.verified && (c.state.Promoted? || c.state.Probation?)
                       else Router(RouterInput(task, trajectory, session.browsedKeys, c, policy))
      ensures session.rounds == old(session.rounds) && session.browsedKeys == old(session.browsedKeys)
      ensures session.injectedTokens == old(session.injectedTokens)
      ensures session.audit == old(session.audit) + [Decided(c.key, c.version, use)]
      ensures session.Now() == Log(old(session.Now()), Decided(c.key, c.version, use))
    {
      if session.config.mode.AgenticReference? {
        use := c.verified && Searchable(c.state);
      } else {
        use := Router(RouterInput(task, trajectory, session.browsedKeys, c, policy));
      }
      session.LogEntry(Decided(c.key, c.version, use));
    }

    method BrowseExperience(session: SearchSession, task: nat, trajectory: nat, c: Summary, policy: Policy)
      returns (reply: Reply)
      modifies session
      ensures var before := old(session.Now());
              (session.Now(), reply) == Browsing(session.config, store.byVersion, before, c,
                                                 Uses(session.config, before, task, trajectory, c, policy))
      ensures var cfg, keys, tokens := session.config, old(session.browsedKeys), old(session.injectedTokens);
              var use := if cfg.mode.AgenticReference? then c.verified && (c.state.Promoted? || c.state.Probation?)
                         else Router(RouterInput(task, trajectory, keys, c, policy));
              var decided := old(session.audit) + [Decided(c.key, c.version, use)];
              var open := use && !cfg.mode.Shadow? && c.key !in keys && |keys| < cfg.maxBrowse && |keys| < cfg.maxCards;
              var known := (cfg.org, c.version) in store.byVersion;
              var view := if known then store.byVersion[(cfg.org, c.version)].view else [];
              var cost := if view == [] then 1 else |view|;
              && session.rounds == old(session.rounds)
              && (reply.NoSuchVersion? <==> open && !known)
              && if open && known && tokens + cost <= cfg.maxTokens then
                   reply == Injected(view) && session.browsedKeys == keys + [c.key]
                   && session.injectedTokens == tokens + cost
                   && session.audit == decided + [BrowseInjected(c.key, c.version, cost)]
                 else
                   !reply.Injected? && session.browsedKeys == keys && session.injectedTokens == tokens
                   && session.audit == decided + (if cfg.mode.Shadow? then [BrowseShadow(c.key, use)]
                                                  else if !use then []
                                                  else if c.key in keys then [BrowseNoop(c.key)]
                                                  else if !open then [BrowseBudgetExhausted(|keys|)]
                                                  else if !known then []
                                                  else [BrowseTokenBudgetExhausted(tokens, cost)])
    {
      var use := Decide(session, task, trajectory, c, policy);
      if session.config.mode.Shadow? {
        session.LogEntry(BrowseShadow(c.key, use));
        return Nothing;
      }
      if !use { return Nothing; }
      if c.key in session.browsedKeys {
        session.LogEntry(BrowseNoop(c.key));
        return Nothing;
      }
      if |session.browsedKeys| >= session.config.maxBrowse || |session.browsedKeys| >= session.config.maxCards {
        session.LogEntry(BrowseBudgetExhausted(|session.browsedKeys|));
        return Nothing;
      }
      if (session.config.org, c.version) !in store.byVersion { return NoSuchVersion; }
      var view := store.byVersion[(session.config.org, c.version)].view;
      var cost := Words(view);
      if session.injectedTokens + cost > session.config.maxTokens {
        session.LogEntry(BrowseTokenBudgetExhausted(session.injectedTokens, cost));
        return Nothing;
      }
      session.browsedKeys := session.browsedKeys + [c.key];
      session.injectedTokens := session.injectedTokens + cost;
      session.LogEntry(BrowseInjected(c.key, c.version, cost));
      return Injected(view);
    }
  }

  // ---------------------------------------------------------------- every sequence of calls

  datatype Call =
    | CallSearch(found: seq<Summary>)
    | CallDecide(candidate: Summary, use: bool)
    | CallBrowse(candidate: Summary, use: bool)
    | CallAdd(org: nat, version: nat, card: Card)

  datatype World = World(lib: Library, session: State)

  function Step(cfg: Config, w: World, call: Call): World {
    match call
    case CallSearch(found) => w.(session := Searching(cfg, w.session, found))
    case CallDecide(c, use) => w.(session := Log(w.session, Decided(c.key, c.version, use)))
    case CallBrowse(c, use) => w.(session := Browsing(cfg, w.lib, w.session, c, use).0)
    case CallAdd(org, version, card) => w.(lib := w.lib[(org, version) := card])
  }

  /** A fresh session over some store, after the calls. */
  function Run(cfg: Config, lib: Library, calls: seq<Call>): World {
    if calls == [] then World(lib, FRESH)
    else Step(cfg, Run(cfg, lib, calls[..|calls| - 1]), calls[|calls| - 1])
  }

  function AtLeastZero(n: int): nat { if n < 0 then 0 else n }

  function TokensIn(audit: seq<Entry>): nat {
    if audit == [] then 0
    else var last := audit[|audit| - 1];
         TokensIn(audit[..|audit| - 1]) + (if last.BrowseInjected? then last.tokens else 0)
  }

  function KeysIn(audit: seq<Entry>): seq<nat> {
    if audit == [] then []
    else var last := audit[|audit| - 1];
         KeysIn(audit[..|audit| - 1]) + (if last.BrowseInjected? then [last.key] else [])
  }

  function SearchesIn(audit: seq<Entry>): nat {
    if audit == [] then 0
    else SearchesIn(audit[..|audit| - 1]) + (if audit[|audit| - 1].Searched? then 1 else 0)
  }

  predicate WithinBudgets(cfg: Config, s: State) {
    && s.rounds <= AtLeastZero(cfg.maxRounds)
    && |s.browsed| <= AtLeastZero(cfg.maxBrowse) && |s.browsed| <= AtLeastZero(cfg.maxCards)
    && s.tokens <= AtLeastZero(cfg.maxTokens)
  }

  /** The counters are what the audit says. */
  ghost predicate Accounted(s: State) {
    s.tokens == TokensIn(s.audit) && s.browsed == KeysIn(s.audit) && s.rounds == SearchesIn(s.audit)
  }

  /** Every injection follows a decision to use that very version, which is in the store of the session's
      organisation, and costs at least one token; a shadow session has none. */
  ghost predicate Justified(cfg: Config, lib: Library, audit: seq<Entry>) {
    forall i :: 0 <= i < |audit| && audit[i].BrowseInjected? ==> JustifiedAt(cfg, lib, audit, i)
  }

  ghost predicate JustifiedAt(cfg: Config, lib: Library, audit: seq<Entry>, i: nat)
    requires i < |audit| && audit[i].BrowseInjected?
  {
    && !cfg.mode.Shadow?
    && i > 0
    && audit[i - 1] == Decided(audit[i].key, audit[i].version, true)
    && (cfg.org, audit[i].version) in lib
    && audit[i].tokens > 0
  }

  ghost predicate Kept(cfg: Config, w: World) {
    && WithinBudgets(cfg, w.session)
    && Distinct(w.session.browsed)
    && Accounted(w.session)
    && Justified(cfg, w.lib, w.session.audit)
    && (cfg.mode.Off? ==> w.session.rounds == 0)
    && (cfg.mode.Shadow? ==> w.session.browsed == [] && w.session.tokens == 0)
  }

  lemma {:induction false} LogAccounted(s: State, e: Entry)
    ensures var audit := s.audit + [e];
            && TokensIn(audit) == TokensIn(s.audit) + (if e.BrowseInjected? then e.tokens else 0)
            && KeysIn(audit) == KeysIn(s.audit) + (if e.BrowseInjected? then [e.key] else [])
            && SearchesIn(audit) == SearchesIn(s.audit) + (if e.Searched? then 1 else 0)
  {
    assert (s.audit + [e])[..|s.audit|] == s.audit;
  }

  /** An entry that injects nothing leaves every injection justified. */
  lemma {:induction false} JustifiedLog(cfg: Config, lib: Library, audit: seq<Entry>, e: Entry)
    requires Justified(cfg, lib, audit) && !e.BrowseInjected?
    ensures Justified(cfg, lib, audit + [e])
  {
    var longer := audit + [e];
    forall i | 0 <= i < |longer| && longer[i].BrowseInjected?
      ensures JustifiedAt(cfg, lib, longer, i)
    {
      assert longer[i] == audit[i] && JustifiedAt(cfg, lib, audit, i);
    }
  }

  lemma {:induction false} JustifiedInjection(cfg: Config, lib: Library, audit: seq<Entry>, key: nat, version: nat, cost: nat)
    requires Justified(cfg, lib, audit) && !cfg.mode.Shadow? && cost > 0 && (cfg.org, version) in lib
    requires audit != [] && audit[|audit| - 1] == Decided(key, version, true)
    ensures Justified(cfg, lib, audit + [BrowseInjected(key, version, cost)])
  {
    var longer := audit + [BrowseInjected(key, version, cost)];
    forall i | 0 <= i < |longer| && longer[i].BrowseInjected?
      ensures JustifiedAt(cfg, lib, longer, i)
    {
      if i < |audit| { assert longer[i] == audit[i] && JustifiedAt(cfg, lib, audit, i); }
    }
  }

  lemma DistinctMore(keys: seq<nat>, key: nat)
    requires Distinct(keys) && key !in keys
    ensures Distinct(keys + [key])
  {
  }

  lemma {:induction false} LogKept(cfg: Config, w: World, e: Entry)
    requires Kept(cfg, w) && !e.BrowseInjected? && !e.Searched?
    ensures Kept(cfg, w.(session := Log(w.session, e)))
  {
    LogAccounted(w.session, e);
    JustifiedLog(cfg, w.lib, w.session.audit, e);
  }

  lemma {:induction false} RoundKept(cfg: Config, w: World, versions: seq<nat>)
    requires Kept(cfg, w) && !cfg.mode.Off? && w.session.rounds < cfg.maxRounds
    ensures var s := w.session;
            Kept(cfg, w.(session := Log(s.(rounds := s.rounds + 1), Searched(s.rounds + 1, versions))))
  {
    var s, e := w.session, Searched(w.session.rounds + 1, versions);
    var t := State(s.rounds + 1, s.browsed, s.tokens, s.audit + [e]);
    assert Accounted(t) by { LogAccounted(s, e); }
    assert Justified(cfg, w.lib, t.audit) by { JustifiedLog(cfg, w.lib, s.audit, e); }
    assert WithinBudgets(cfg, t);
    assert t == Log(s.(rounds := s.rounds + 1), e);
  }

  lemma {:induction false} SearchKept(cfg: Config, w: World, found: seq<Summary>)
    requires Kept(cfg, w)
    ensures Kept(cfg, w.(session := Searching(cfg, w.session, found)))
  {
    if cfg.mode.Off? {
      LogKept(cfg, w, SearchSkipped);
    } else if w.session.rounds >= cfg.maxRounds {
      LogKept(cfg, w, SearchBudgetExhausted(w.session.rounds));
    } else {
      RoundKept(cfg, w, Versions(found));
    }
  }

  lemma {:induction false} InjectKept(cfg: Config, w: World, c: Summary, cost: nat)
    requires Kept(cfg, w) && !cfg.mode.Shadow? && c.key !in w.session.browsed && cost > 0
    requires |w.session.browsed| < cfg.maxBrowse && |w.session.browsed| < cfg.maxCards
    requires (cfg.org, c.version) in w.lib && w.session.tokens + cost <= cfg.maxTokens
    requires w.session.audit != [] && w.session.audit[|w.session.audit| - 1] == Decided(c.key, c.version, true)
    ensures var s := w.session;
            Kept(cfg, w.(session := Log(s.(browsed := s.browsed + [c.key], tokens := s.tokens + cost),
                                        BrowseInjected(c.key, c.version, cost))))
  {
    var s, e := w.session, BrowseInjected(c.key, c.version, cost);
    var t := State(s.rounds, s.browsed + [c.key], s.tokens + cost, s.audit + [e]);
    assert Accounted(t) by { LogAccounted(s, e); }
    assert Justified(cfg, w.lib, t.audit) by { JustifiedInjection(cfg, w.lib, s.audit, c.key, c.version, cost); }
    assert Distinct(t.browsed) by { DistinctMore(s.browsed, c.key); }
    assert WithinBudgets(cfg, t);
  }

  lemma BrowseKept(cfg: Config, w: World, c: Summary, use: bool)
    requires Kept(cfg, w)
    ensures Kept(cfg, w.(session := Browsing(cfg, w.lib, w.session, c, use).0))
  {
    var v := w.(session := Log(w.session, Decided(c.key, c.version, use)));
    LogKept(cfg, w, Decided(c.key, c.version, use));
    var s := v.session;
    if cfg.mode.Shadow? {
      LogKept(cfg, v, BrowseShadow(c.key, use));
    } else if !use {
    } else if c.key in s.browsed {
      LogKept(cfg, v, BrowseNoop(c.key));
    } else if |s.browsed| >= cfg.maxBrowse || |s.browsed| >= cfg.maxCards {
      LogKept(cfg, v, BrowseBudgetExhausted(|s.browsed|));
    } else if (cfg.org, c.version) in w.lib {
      var cost := Words(w.lib[(cfg.org, c.version)].view);
      if s.tokens + cost > cfg.maxTokens {
        LogKept(cfg, v, BrowseTokenBudgetExhausted(s.tokens, cost));
      } else {
        InjectKept(cfg, v, c, cost);
      }
    }
  }

  lemma {:induction false} AddKept(cfg: Config, w: World, k: (nat, nat), card: Card)
    requires Kept(cfg, w)
    ensures Kept(cfg, w.(lib := w.lib[k := card]))
  {
    var lib := w.lib[k := card];
    forall i | 0 <= i < |w.session.audit| && w.session.audit[i].BrowseInjected?
      ensures JustifiedAt(cfg, lib, w.session.audit, i)
    {
      assert JustifiedAt(cfg, w.lib, w.session.audit, i);
    }
  }

  lemma StepKept(cfg: Config, w: World, call: Call)
    requires Kept(cfg, w)
    ensures Kept(cfg, Step(cfg, w, call))
  {
    match call
    case CallSearch(found) => SearchKept(cfg, w, found);
    case CallDecide(c, use) => LogKept(cfg, w, Decided(c.key, c.version, use));
    case CallBrowse(c, use) => BrowseKept(cfg, w, c, use);
    case CallAdd(org, version, card) => AddKept(cfg, w, (org, version), card);
  }

  lemma FreshKept(cfg: Config, lib: Library)
    ensures Kept(cfg, World(lib, FRESH))
  {
  }

  /** Over every sequence of searches, decisions, browses and additions: rounds, browsed cards and injected
      tokens stay within their budgets, no card is browsed twice, the counters are what the audit adds up
      to, every injection was decided on, and a shadow session injects nothing. */
  lemma {:induction false} EveryRunKeeps(cfg: Config, lib: Library, calls: seq<Call>)
    ensures Kept(cfg, Run(cfg, lib, calls))
  {
    if calls == [] {
      FreshKept(cfg, lib);
    } else {
      EveryRunKeeps(cfg, lib, calls[..|calls| - 1]);
      StepKept(cfg, Run(cfg, lib, calls[..|calls| - 1]), calls[|calls| - 1]);
    }
  }

  // ---------------------------------------------------------------- what was injected

  /** Entry `i` of the audit records that this call, made when the session and the store were as in `before`,
      returned the view its version had in the store of the session's organisation then, for its size. */
  ghost predicate Delivered(cfg: Config, before: World, call: Call, audit: seq<Entry>, i: nat) {
    && i < |audit| && audit[i].BrowseInjected?
    && call.CallBrowse? && call.use && call.candidate.key == audit[i].key && call.candidate.version == audit[i].version
    && i == |before.session.audit| + 1
    && (cfg.org, audit[i].version) in before.lib
    && var view := before.lib[(cfg.org, audit[i].version)].view;
       audit[i].tokens == (if view == [] then 1 else |view|)
       && Browsing(cfg, before.lib, before.session, call.candidate, true).1 == Injected(view)
  }

  /** A step only appends to the audit, and what it injects it delivers. */
  lemma StepDelivers(cfg: Config, w: World, call: Call)
    ensures var audit := Step(cfg, w, call).session.audit;
            && w.session.audit <= audit
            && forall i :: |w.session.audit| <= i < |audit| && audit[i].BrowseInjected? ==>
                 Delivered(cfg, w, call, audit, i)
  {
  }

  /** Every injection of a run was delivered by one of its calls: the recorded tokens are the size of the view
      the version had when it was injected, and that view is what the call returned. */
  lemma {:induction false} EveryInjectionDelivered(cfg: Config, lib: Library, calls: seq<Call>, i: nat)
    requires i < |Run(cfg, lib, calls).session.audit| && Run(cfg, lib, calls).session.audit[i].BrowseInjected?
    ensures exists n :: 0 <= n < |calls|
                        && Delivered(cfg, Run(cfg, lib, calls[..n]), calls[n], Run(cfg, lib, calls).session.audit, i)
  {
    if calls != [] {
      var last := |calls| - 1;
      var w := Run(cfg, lib, calls[..last]);
      StepDelivers(cfg, w, calls[last]);
      if i < |w.session.audit| {
        EveryInjectionDelivered(cfg, lib, calls[..last], i);
        var n :| 0 <= n < last && Delivered(cfg, Run(cfg, lib, calls[..last][..n]), calls[..last][n], w.session.audit, i);
        assert calls[..last][..n] == calls[..n];
        assert Delivered(cfg, Run(cfg, lib, calls[..n]), calls[n], Run(cfg, lib, calls).session.audit, i);
      }
    }
  }
}
