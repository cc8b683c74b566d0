/** The ownership of a stored job read off its rows, and a run that ends with a job nobody
    owns. */
module Ownerless {
  import opened Wrappers
  import opened Catalogue
  import opened Ownership
  import opened SoleOwner
  import opened Lifecycle
  import opened LifecycleLaws
  import opened Convergence
  import D = Deduplication
  import P = Persistence

  // ---------- The rows of a job ----------

  function RowsOn(s: State, j: JobId): set<RowKey> {
    set k | k in s.rows && s.rows[k].job == j && k.source in s.sources
  }

  function SourcesOn(s: State, j: JobId): set<SourceKey> {
    set k | k in RowsOn(s, j) :: k.source
  }

  ghost function RowOf(s: State, j: JobId, source: SourceKey): (k: RowKey)
    requires source in SourcesOn(s, j)
    ensures k in RowsOn(s, j) && k.source == source
  {
    var k :| k in RowsOn(s, j) && k.source == source;
    k
  }

  ghost function AccountsOf(s: State, j: JobId): Accounts {
    map source | source in SourcesOn(s, j) :: AccountOf(s, RowOf(s, j, source))
  }

  lemma AccountIsTheRow(s: State, j: JobId, k: RowKey)
    requires OneRowPerSource(s, j) && k in RowsOn(s, j)
    ensures k.source in AccountsOf(s, j) && AccountsOf(s, j)[k.source] == AccountOf(s, k)
  {
    assert k.source in SourcesOn(s, j);
    assert RowOf(s, j, k.source) == k;
  }

  /** The ranking of a source's own record says whether the source owns the job. */
  lemma RankingReadsTheRows(s: State, j: JobId, reg: Registration, r: Record, seenAt: Instant)
    requires OneRowPerSource(s, j) && Lists(s, j, reg, r) && s.rows[r.Key()].firstSeen <= seenAt
    ensures IncomingOutranks(s, j, reg, r, seenAt) <==> Owns(AccountsOf(s, j), reg.key)
  {
    var accounts := AccountsOf(s, j);
    FirstListedIsTheRow(s, j, reg, r, seenAt);
    AccountIsTheRow(s, j, r.Key());
    OthersAreTheRivals(s, j, reg.key);
  }

  lemma OthersAreTheRivals(s: State, j: JobId, source: SourceKey)
    requires OneRowPerSource(s, j)
    ensures Others(AccountsOf(s, j), source) == RivalAccounts(s, j, source)
  {
    var accounts := AccountsOf(s, j);
    forall a ensures a in Others(accounts, source) <==> a in RivalAccounts(s, j, source) {
      if a in Others(accounts, source) {
        var l :| l in accounts && l != source && accounts[l] == a;
        assert AccountOf(s, RowOf(s, j, l)) == a;
      }
      if a in RivalAccounts(s, j, source) {
        var k :|
          k in s.rows && k.source in s.sources && s.rows[k].job == j && k.source != source && AccountOf(s, k) == a;
        AccountIsTheRow(s, j, k);
      }
    }
  }

  /** Some source that lists the job takes what it contests from the others if and only if
      the rows meet the condition. */
  lemma AJobHasAnOwnerIff(s: State, j: JobId)
    requires OneRowPerSource(s, j)
    ensures (exists k :: k in RowsOn(s, j) && Owns(AccountsOf(s, j), k.source)) <==> SomeoneShould(AccountsOf(s, j))
  {
    AnOwnerExistsIff(AccountsOf(s, j));
    forall source | Owns(AccountsOf(s, j), source) ensures exists k :: k in RowsOn(s, j) && k.source == source {
      assert RowOf(s, j, source) in RowsOn(s, j);
    }
  }

  // ---------- Three full texts of one rank ----------

  const PLACE := Text("Berlin")

  const BRIEF := Canonical("Engineer", "Builds.", PLACE, Missing, Missing, "u", Missing, Missing)
  const FULL := Canonical("Engineer", "Builds.", PLACE, Text("remote"), Text("full-time"), "u", Date(0), Date(1))

  function From(source: SourceKey, fields: Canonical): Record {
    Record("acme", fields, source, "1", "", false)
  }

  function Ranked(source: SourceKey): Registration { Registration(source, 0) }

  /** A place is the place it is and a text reads as it reads. */
  ghost predicate Reflexive(m: Matching) {
    (forall v :: m.samePlace(v, v)) && (forall t :: m.readsTheSame(t, t))
  }

  /** One job, whose fields are a fold of the two accounts, and only full texts on it. */
  predicate Board(m: Matching, s: State) {
    && Valid(m, s) && s.jobs.Keys == {0} && s.jobs[0].company == "acme" && s.jobs[0].status == Active
    && (forall f: Field :: s.jobs[0].fields.At(f) == BRIEF.At(f) || s.jobs[0].fields.At(f) == FULL.At(f))
    && (forall k :: k in s.rows ==>
          s.rows[k].job == 0 && s.rows[k].payload.Delivered? && !s.rows[k].payload.partial && k.id == "1")
  }

  /** One more listing, and nothing else. */
  predicate OneMoreListing(s: State, t: State, source: SourceKey, fields: Canonical, at: Instant) {
    var key := RowKey(source, "1");
    && t.rows.Keys == s.rows.Keys + {key} && (forall k :: k in s.rows && k != key ==> t.rows[k] == s.rows[k])
    && t.rows[key].job == 0 && t.rows[key].retired.None? && t.rows[key].firstSeen == at
    && t.rows[key].payload == Delivered(false, StatedFieldCount(fields))
    && t.sources == s.sources[source := 0]
  }

  lemma FirstOnTheBoard(m: Matching, c: SourceKey, at: Instant)
    ensures var t := Apply(m, EMPTY, Send(Ranked(c), From(c, BRIEF), at, at));
            Board(m, t) && OneMoreListing(EMPTY, t, c, BRIEF, at)
  {
    EmptyIsValid(m);
    var r := From(c, BRIEF);
    assert D.Candidates(m, EMPTY, r) == {};
    assert P.Persist(m, EMPTY, Ranked(c), r, at, at) == P.CreateJob(m, EMPTY, Ranked(c), r, at, at);
    CreateKeepsValid(m, EMPTY, Ranked(c), r, at, at);
  }

  lemma DatesOfTheTwo(c: Canonical)
    requires forall f: Field :: c.At(f) == BRIEF.At(f) || c.At(f) == FULL.At(f)
    ensures c.DatesInOrder() && c.title == "Engineer" && c.description == "Builds." && c.location == PLACE
  {
    assert c.At(PublishedAt) == BRIEF.At(PublishedAt) || c.At(PublishedAt) == FULL.At(PublishedAt);
    assert c.At(ExpiresAt) == BRIEF.At(ExpiresAt) || c.At(ExpiresAt) == FULL.At(ExpiresAt);
    assert c.At(Title) == BRIEF.At(Title) && c.At(Description) == BRIEF.At(Description) && c.At(Location) == PLACE;
  }

  lemma DecidesForTheBoard(m: Matching, s: State, r: Record)
    requires Reflexive(m) && Board(m, s) && r.company == "acme" && r.Key() !in s.rows && r.fields == FULL && !r.partial
    ensures D.Decide(m, s, r).Changed? || D.Decide(m, s, r).Unchanged?
    ensures D.Decide(m, s, r).job == 0
  {
    DatesOfTheTwo(s.jobs[0].fields);
    assert D.Candidates(m, s, r) == {0};
  }

  lemma StoredOnTheBoard(m: Matching, s: State, reg: Registration, r: Record, at: Instant)
    requires Reflexive(m) && Board(m, s) && reg.key == r.source
    requires r.company == "acme" && r.Key() !in s.rows && r.fields == FULL && !r.partial
    ensures var report := P.Persist(m, s, reg, r, at, at).1;
            !report.failed && report.outcome != P.Created && report.job == Some(0)
    ensures forall f: Field ::
      P.Folded(s, 0, reg, r, at).At(f) == BRIEF.At(f) || P.Folded(s, 0, reg, r, at).At(f) == FULL.At(f)
  {
    DecidesForTheBoard(m, s, r);
    hide D.Decide, IncomingOutranks, Valid, Resolve;
    var fields := P.Folded(s, 0, reg, r, at);
    forall f: Field ensures fields.At(f) == BRIEF.At(f) || fields.At(f) == FULL.At(f) {
      assert fields.At(f) == s.jobs[0].fields.At(f) || fields.At(f) == FULL.At(f);
    }
    DatesOfTheTwo(fields);
  }

  lemma JoinsTheBoard(m: Matching, s: State, source: SourceKey, at: Instant)
    requires Reflexive(m) && Board(m, s) && RowKey(source, "1") !in s.rows
    ensures var t := Apply(m, s, Send(Ranked(source), From(source, FULL), at, at));
            Board(m, t) && OneMoreListing(s, t, source, FULL, at)
  {
    var reg, r := Ranked(source), From(source, FULL);
    var t := P.Persist(m, s, reg, r, at, at).0;
    StoredOnTheBoard(m, s, reg, r, at);
    hide P.Persist, P.Folded, P.Land, P.Register, Valid, Board, OneMoreListing, ChangesOnly;
    BoardIsValid(m, s);
    SendKeepsValid(m, s, reg, r, at, at);
    StoredSendFolds(m, s, reg, r, at, at);
    var fields := P.Folded(s, 0, reg, r, at);
    var matchKey := m.keyOf(s.jobs[0].company, fields.title);
    LandChangesOnly(s, reg, 0, fields, matchKey, r, at, at);
    LandedRow(s, reg, 0, fields, matchKey, r, at, at);
    SendRegisters(m, s, reg, r, at, at);
    ReappearanceUndoesBothConclusions(m, s, reg, r, at, at);
    assert StoredPayload(r) == Delivered(false, StatedFieldCount(FULL));
    BoardAfter(m, s, t, source, FULL, at);
  }

  lemma BoardIsValid(m: Matching, s: State)
    requires Board(m, s)
    ensures Valid(m, s) && SeenInOrder(s) && 0 in s.jobs && s.jobs[0].status == Active
  {
  }

  lemma BoardAfter(m: Matching, s: State, t: State, source: SourceKey, fields: Canonical, at: Instant)
    requires Board(m, s) && Valid(m, t) && ChangesOnly(s, t, 0, RowKey(source, "1"))
    requires t.jobs[0].company == s.jobs[0].company && t.jobs[0].status == s.jobs[0].status
    requires forall f: Field :: t.jobs[0].fields.At(f) == BRIEF.At(f) || t.jobs[0].fields.At(f) == FULL.At(f)
    requires t.rows[RowKey(source, "1")].payload == Delivered(false, StatedFieldCount(fields))
    requires t.rows[RowKey(source, "1")].firstSeen == at && t.sources == s.sources[source := 0]
    ensures Board(m, t) && OneMoreListing(s, t, source, fields, at)
  {
    hide Valid, StatedFieldCount;
  }

  // ---------- Nobody owns it ----------

  predicate Distinct(a: SourceKey, b: SourceKey, c: SourceKey) {
    a != b && b != c && c != a
  }

  /** Three listings of one rank: two that state the same, and an earlier one that states
      less. The earlier one states less than the others, and neither of the others was
      first, so none of them owns the job. */
  lemma ThreeWithNoLead(accounts: Accounts, a: SourceKey, b: SourceKey, c: SourceKey)
    requires Distinct(a, b, c) && accounts.Keys == {a, b, c}
    requires accounts[c] == Account(0, 1, true, false, 1)
    requires accounts[a] == Account(0, 2, true, false, 5) && accounts[b] == Account(0, 3, true, false, 5)
    ensures !SomeoneShould(accounts)
  {
    var top := Top(accounts);
    assert top == {a, b, c};
    assert FullAtTop(accounts) == top;
    hide Top, FullAtTop;
    assert a in top && b in top && c in top;
    hide Leads;
    Bettered(accounts, top, a, b, c);
    Bettered(accounts, top, b, a, a);
    Bettered(accounts, top, c, a, a);
    assert |top| == 3;
  }

  /** It leads nobody who states no less than it, while one states more or came no later. */
  lemma Bettered(accounts: Accounts, peers: set<SourceKey>, k: SourceKey, asMuch: SourceKey, ahead: SourceKey)
    requires k in accounts && peers <= accounts.Keys && {asMuch, ahead} <= peers - {k}
    requires accounts[asMuch].stated >= accounts[k].stated
    requires accounts[ahead].stated > accounts[k].stated || accounts[ahead].firstSeen <= accounts[k].firstSeen
    ensures !Leads(accounts, peers, k)
  {
    assert asMuch in {asMuch, ahead} && ahead in {asMuch, ahead};
  }

  function ThreeSends(a: SourceKey, b: SourceKey, c: SourceKey): seq<Step> {
    [Send(Ranked(c), From(c, BRIEF), 1, 1),
     Send(Ranked(a), From(a, FULL), 2, 2),
     Send(Ranked(b), From(b, FULL), 3, 3)]
  }

  /** From an empty catalogue, three boards of one rank send the same posting in full, the
      first saying little else and the other two all there is. Each lists the job, and none
      takes what it contests from the other two. */
  lemma AJobNobodyOwns(m: Matching, a: SourceKey, b: SourceKey, c: SourceKey)
    requires Reflexive(m) && Distinct(a, b, c)
    ensures var s := Run(m, EMPTY, ThreeSends(a, b, c));
      && Valid(m, s) && OneRowPerSource(s, 0)
      && Lists(s, 0, Ranked(c), From(c, BRIEF)) && !IncomingOutranks(s, 0, Ranked(c), From(c, BRIEF), 4)
      && Lists(s, 0, Ranked(a), From(a, FULL)) && !IncomingOutranks(s, 0, Ranked(a), From(a, FULL), 4)
      && Lists(s, 0, Ranked(b), From(b, FULL)) && !IncomingOutranks(s, 0, Ranked(b), From(b, FULL), 4)
  {
    var first := Apply(m, EMPTY, Send(Ranked(c), From(c, BRIEF), 1, 1));
    var second := Apply(m, first, Send(Ranked(a), From(a, FULL), 2, 2));
    var s := Apply(m, second, Send(Ranked(b), From(b, FULL), 3, 3));
    hide Apply, Run, Board, StatedFieldCount, Lists, IncomingOutranks, Owns, SomeoneShould;
    FirstOnTheBoard(m, c, 1);
    JoinsTheBoard(m, first, a, 2);
    JoinsTheBoard(m, second, b, 3);
    RunOfThree(m, first, second, s, a, b, c);
    BoardIsValid(m, s);
    TheThreeRows(m, first, second, s, a, b, c);
    var accounts := AccountsOf(s, 0);
    ThreeWithNoLead(accounts, a, b, c);
    AnOwnerExistsIff(accounts);
    RankingReadsTheRows(s, 0, Ranked(c), From(c, BRIEF), 4);
    RankingReadsTheRows(s, 0, Ranked(a), From(a, FULL), 4);
    RankingReadsTheRows(s, 0, Ranked(b), From(b, FULL), 4);
  }

  lemma RunOfThree(m: Matching, first: State, second: State, third: State, a: SourceKey, b: SourceKey, c: SourceKey)
    requires first == Apply(m, EMPTY, Send(Ranked(c), From(c, BRIEF), 1, 1))
    requires second == Apply(m, first, Send(Ranked(a), From(a, FULL), 2, 2))
    requires third == Apply(m, second, Send(Ranked(b), From(b, FULL), 3, 3))
    ensures Run(m, EMPTY, ThreeSends(a, b, c))
         == third
  {
    hide Apply;
    var steps := ThreeSends(a, b, c);
    var last, later := [steps[2]], [steps[1], steps[2]];
    assert steps[1..] == later && later[1..] == last && last[1..] == [];
    assert Run(m, second, last) == third;
    assert Run(m, first, later) == third;
  }

  lemma TheThreeRows(m: Matching, first: State, second: State, s: State, a: SourceKey, b: SourceKey, c: SourceKey)
    requires Distinct(a, b, c) && Board(m, s)
    requires OneMoreListing(EMPTY, first, c, BRIEF, 1) && OneMoreListing(first, second, a, FULL, 2)
    requires OneMoreListing(second, s, b, FULL, 3)
    ensures OneRowPerSource(s, 0)
    ensures Lists(s, 0, Ranked(c), From(c, BRIEF)) && s.rows[RowKey(c, "1")].firstSeen == 1
    ensures Lists(s, 0, Ranked(a), From(a, FULL)) && s.rows[RowKey(a, "1")].firstSeen == 2
    ensures Lists(s, 0, Ranked(b), From(b, FULL)) && s.rows[RowKey(b, "1")].firstSeen == 3
    ensures AccountsOf(s, 0).Keys == {a, b, c}
    ensures AccountsOf(s, 0)[c] == Account(0, 1, true, false, 1)
    ensures AccountsOf(s, 0)[a] == Account(0, 2, true, false, 5) && AccountsOf(s, 0)[b] == Account(0, 3, true, false, 5)
  {
    assert StatedFieldCount(BRIEF) == 1 && StatedFieldCount(FULL) == 5;
    hide StatedFieldCount, Board, OneMoreListing, AccountsOf, IsListing, Lists, OneRowPerSource;
    TheTables(first, second, s, a, b, c);
    ThreeSources(s, a, b, c);
    ListingLists(s, a, FULL, 2);
    ListingLists(s, b, FULL, 3);
    ListingLists(s, c, BRIEF, 1);
    AccountIsListed(s, a, 2, 5);
    AccountIsListed(s, b, 3, 5);
    AccountIsListed(s, c, 1, 1);
    SourcesAre(s, a, b, c);
  }

  /** One row of a board's table. */
  predicate IsListing(s: State, source: SourceKey, stated: nat, at: Instant) {
    var key := RowKey(source, "1");
    && source in s.sources && s.sources[source] == 0 && key in s.rows && s.rows[key].job == 0
    && s.rows[key].retired.None? && s.rows[key].firstSeen == at && s.rows[key].payload == Delivered(false, stated)
  }

  lemma TheTables(first: State, second: State, s: State, a: SourceKey, b: SourceKey, c: SourceKey)
    requires Distinct(a, b, c) && OneMoreListing(EMPTY, first, c, BRIEF, 1) && OneMoreListing(first, second, a, FULL, 2)
    requires OneMoreListing(second, s, b, FULL, 3)
    ensures s.rows.Keys == {RowKey(a, "1"), RowKey(b, "1"), RowKey(c, "1")}
    ensures IsListing(s, c, StatedFieldCount(BRIEF), 1)
    ensures IsListing(s, a, StatedFieldCount(FULL), 2) && IsListing(s, b, StatedFieldCount(FULL), 3)
  {
    hide StatedFieldCount;
    assert first.rows.Keys == {RowKey(c, "1")};
    assert second.rows.Keys == {RowKey(c, "1"), RowKey(a, "1")};
  }

  lemma ListingLists(s: State, source: SourceKey, fields: Canonical, at: Instant)
    requires IsListing(s, source, StatedFieldCount(fields), at)
    ensures Lists(s, 0, Ranked(source), From(source, fields)) && s.rows[RowKey(source, "1")].firstSeen == at
  {
  }

  lemma ThreeSources(s: State, a: SourceKey, b: SourceKey, c: SourceKey)
    requires Distinct(a, b, c) && s.rows.Keys == {RowKey(a, "1"), RowKey(b, "1"), RowKey(c, "1")}
    requires IsListing(s, a, StatedFieldCount(FULL), 2) && IsListing(s, b, StatedFieldCount(FULL), 3)
    requires IsListing(s, c, StatedFieldCount(BRIEF), 1)
    ensures OneRowPerSource(s, 0)
    ensures forall k :: k in s.rows ==> s.rows[k].job == 0 && k.source in s.sources
  {
    hide StatedFieldCount;
  }

  lemma AccountIsListed(s: State, source: SourceKey, at: Instant, stated: nat)
    requires OneRowPerSource(s, 0) && IsListing(s, source, stated, at)
    ensures source in AccountsOf(s, 0) && AccountsOf(s, 0)[source] == Account(0, at, true, false, stated)
  {
    AccountIsTheRow(s, 0, RowKey(source, "1"));
  }

  lemma SourcesAre(s: State, a: SourceKey, b: SourceKey, c: SourceKey)
    requires s.rows.Keys == {RowKey(a, "1"), RowKey(b, "1"), RowKey(c, "1")}
    requires forall k :: k in s.rows ==> s.rows[k].job == 0 && k.source in s.sources
    ensures AccountsOf(s, 0).Keys == {a, b, c}
  {
    hide AccountOf;
    var ka, kb, kc := RowKey(a, "1"), RowKey(b, "1"), RowKey(c, "1");
    assert RowsOn(s, 0) == {ka, kb, kc};
    assert ka.source in SourcesOn(s, 0) && kb.source in SourcesOn(s, 0) && kc.source in SourcesOn(s, 0);
    forall x | x in SourcesOn(s, 0) ensures x in {a, b, c} {
      var k :| k in RowsOn(s, 0) && k.source == x;
    }
  }
}
