/** Who owns a job's canonical fields when several sources describe it. */
module Ownership {
  import opened Wrappers
  import opened Extremes
  import opened Catalogue

  // The fallback word both vocabularies use for "no idea".
  const UNSPECIFIED := "unspecified"

  predicate IsStated(v: Value) {
    v != Missing && v != Text(UNSPECIFIED)
  }

  /** Silence never wins; between two voices the ranking decides. */
  function Resolve(stored: Value, incoming: Value, incomingOutranks: bool): (v: Value)
    ensures v == stored || v == incoming
    ensures IsStated(stored) || IsStated(incoming) ==> IsStated(v)
  {
    if !IsStated(incoming) then stored
    else if !IsStated(stored) then incoming
    else if incomingOutranks then incoming
    else stored
  }

  function ResolveText(stored: string, incoming: string, incomingOutranks: bool): string {
    Resolve(Text(stored), Text(incoming), incomingOutranks).text
  }

  function Merge(stored: Canonical, incoming: Canonical, incomingOutranks: bool): (merged: Canonical)
    ensures forall f: Field ::
              merged.At(f) == Resolve(stored.At(f), incoming.At(f), incomingOutranks)
  {
    Canonical(
      ResolveText(stored.title, incoming.title, incomingOutranks),
      ResolveText(stored.description, incoming.description, incomingOutranks),
      Resolve(stored.location, incoming.location, incomingOutranks),
      Resolve(stored.workplaceType, incoming.workplaceType, incomingOutranks),
      Resolve(stored.employmentType, incoming.employmentType, incomingOutranks),
      ResolveText(stored.applicationUrl, incoming.applicationUrl, incomingOutranks),
      Resolve(stored.publishedAt, incoming.publishedAt, incomingOutranks),
      Resolve(stored.expiresAt, incoming.expiresAt, incomingOutranks))
  }

  /** Two accounts are the same when every field is. */
  lemma SameFields(a: Canonical, b: Canonical)
    requires forall f: Field :: a.At(f) == b.At(f)
    ensures a == b
  {
    assert a.At(Title) == b.At(Title) && a.At(Description) == b.At(Description);
    assert a.At(Location) == b.At(Location) && a.At(WorkplaceType) == b.At(WorkplaceType);
    assert a.At(EmploymentType) == b.At(EmploymentType) && a.At(ApplicationUrl) == b.At(ApplicationUrl);
    assert a.At(PublishedAt) == b.At(PublishedAt) && a.At(ExpiresAt) == b.At(ExpiresAt);
  }

  /** Folding the same record in again under the same ranking adds nothing. */
  lemma MergeIsIdempotent(stored: Canonical, incoming: Canonical, outranks: bool)
    ensures Merge(Merge(stored, incoming, outranks), incoming, outranks) == Merge(stored, incoming, outranks)
  {
    SameFields(Merge(Merge(stored, incoming, outranks), incoming, outranks), Merge(stored, incoming, outranks));
  }

  function Stated(v: Value): nat { if IsStated(v) then 1 else 0 }

  /** How many of the five optional fields a record states. */
  function StatedFieldCount(c: Canonical): nat {
    Stated(c.location) + Stated(c.workplaceType) + Stated(c.employmentType)
    + Stated(c.publishedAt) + Stated(c.expiresAt)
  }

  /** What a payload says of its own record: whether it was a snippet, and how
      many optional fields it stated. A payload without the facts reads as full
      text that stated nothing. */
  function PayloadFacts(p: Payload): (bool, nat) {
    match p
    case Delivered(partial, stated) => (partial, stated)
    case Absent => (false, 0)
    case Emptied(_) => (false, 0)
  }

  function StoredPayload(r: Record): Payload {
    Delivered(r.partial, StatedFieldCount(r.fields))
  }

  /** One other source's row on a job, as the ownership rule reads it. */
  datatype Account = Account(rank: int, firstSeen: Instant, live: bool, partial: bool, stated: nat)

  datatype Owner = Owner(precedence: int, firstSeen: Instant, partial: bool, stated: nat)

  function AccountOf(s: State, k: RowKey): Account
    requires k in s.rows && k.source in s.sources
  {
    var row := s.rows[k];
    var (partial, stated) := PayloadFacts(row.payload);
    Account(s.sources[k.source], row.firstSeen, row.retired.None?, partial, stated)
  }

  function RivalAccounts(s: State, j: JobId, otherThan: SourceKey): set<Account> {
    set k | k in s.rows && k.source in s.sources && s.rows[k].job == j && k.source != otherThan
      :: AccountOf(s, k)
  }

  predicate SuppliedFullText(accounts: set<Account>) {
    exists a :: a in accounts && !a.partial
  }

  function HighestRank(accounts: set<Account>): (rank: int)
    requires accounts != {}
    ensures forall a :: a in accounts ==> a.rank <= rank
    ensures exists a :: a in accounts && a.rank == rank
  {
    var ranks := set a | a in accounts :: a.rank;
    assert forall a :: a in accounts ==> a.rank in ranks;
    Greatest(ranks)
  }

  function Owning(accounts: set<Account>): (owning: set<Account>)
    requires exists a :: a in accounts && a.live
    ensures owning != {}
    ensures forall a :: a in owning ==> a in accounts && a.live
    ensures forall a, b :: a in owning && b in accounts && b.live ==> b.rank <= a.rank
    ensures forall a, b :: a in owning && b in accounts && b.live && b.rank == a.rank ==> b in owning
  {
    var live := set a | a in accounts && a.live;
    var witnessed :| witnessed in accounts && witnessed.live;
    assert witnessed in live;
    assert forall b :: b in accounts && b.live ==> b in live;
    var highest := HighestRank(live);
    var owning := set a | a in live && a.rank == highest;
    assert exists a :: a in owning by {
      var a :| a in live && a.rank == highest;
      assert a in owning;
    }
    owning
  }

  function FirstDate(accounts: set<Account>): (date: Instant)
    requires accounts != {}
    ensures forall a :: a in accounts ==> date <= a.firstSeen
    ensures exists a :: a in accounts && a.firstSeen == date
  {
    var dates := set a | a in accounts :: a.firstSeen;
    assert forall a :: a in accounts ==> a.firstSeen in dates;
    Least(dates)
  }

  function LargestCount(accounts: set<Account>): (count: nat)
    requires accounts != {}
    ensures forall a :: a in accounts ==> a.stated <= count
    ensures exists a :: a in accounts && a.stated == count
  {
    var counts: set<int> := set a | a in accounts :: a.stated;
    assert forall a :: a in accounts ==> a.stated in counts;
    Greatest(counts)
  }

  /** The live rows at the highest rank, taken together. */
  function OwnerOf(accounts: set<Account>): Option<Owner> {
    if !exists a :: a in accounts && a.live then None
    else
      var owning := Owning(accounts);
      Some(Owner(
        HighestRank(owning), FirstDate(owning), forall a :: a in owning ==> a.partial, LargestCount(owning)))
  }

  /** The earliest date among a source's rows on a job and the arriving record's. */
  function FirstListedAt(s: State, j: JobId, source: SourceKey, seenAt: Instant): Instant {
    Least({seenAt} + set k | k in s.rows && k.source == source && s.rows[k].job == j :: s.rows[k].firstSeen)
  }

  /** Full text before a snippet, then the larger count of stated fields. */
  predicate MoreComplete(partial: bool, stated: nat, thanPartial: bool, thanStated: nat) {
    if partial != thanPartial then !partial else stated > thanStated
  }

  /** Whether a voice takes the fields it contests from the accounts of the others. */
  predicate Outranks(rank: int, partial: bool, stated: nat, listedAt: Instant, accounts: set<Account>) {
    if partial && SuppliedFullText(accounts) then false
    else
      match OwnerOf(accounts)
      case None => true
      case Some(owner) =>
        if rank != owner.precedence then rank > owner.precedence
        else if (partial, stated) != (owner.partial, owner.stated) then
          MoreComplete(partial, stated, owner.partial, owner.stated)
        else listedAt < owner.firstSeen
  }

  predicate IncomingOutranks(s: State, j: JobId, reg: Registration, r: Record, seenAt: Instant) {
    Outranks(
      reg.precedence, r.partial, StatedFieldCount(r.fields),
      FirstListedAt(s, j, reg.key, seenAt), RivalAccounts(s, j, reg.key))
  }

  /** Rows that do not say what they delivered count as full texts that stated nothing: among
      live ones of its own rank a record prevails if it is a full text itself and states
      something, or was listed before all of them. */
  lemma AgainstUnrecordedRows(s: State, j: JobId, reg: Registration, r: Record, seenAt: Instant)
    requires RivalAccounts(s, j, reg.key) != {}
    requires forall k :: k in s.rows && k.source in s.sources && s.rows[k].job == j && k.source != reg.key ==>
      !s.rows[k].payload.Delivered? && s.rows[k].retired.None? && s.sources[k.source] == reg.precedence
    ensures IncomingOutranks(s, j, reg, r, seenAt) <==>
      && !r.partial
      && (StatedFieldCount(r.fields) > 0
          || forall k :: k in s.rows && k.source in s.sources && s.rows[k].job == j && k.source != reg.key ==>
               FirstListedAt(s, j, reg.key, seenAt) < s.rows[k].firstSeen)
  {
    var accounts := RivalAccounts(s, j, reg.key);
    assert forall a :: a in accounts ==>
      a == Account(reg.precedence, a.firstSeen, true, false, 0);
    var a :| a in accounts;
    assert Owning(accounts) == accounts;
    hide FirstListedAt, StatedFieldCount, Owning;
    var owner := OwnerOf(accounts).value;
    assert !owner.partial && owner.stated == 0 && owner.precedence == reg.precedence;
    forall k | k in s.rows && k.source in s.sources && s.rows[k].job == j && k.source != reg.key
      ensures owner.firstSeen <= s.rows[k].firstSeen
    {
      assert AccountOf(s, k) in accounts;
    }
    var first :| first in accounts && first.firstSeen == owner.firstSeen;
  }

  // ---------- At most one source owns a job ----------

  predicate OneRowPerSource(s: State, j: JobId) {
    forall k, l | k in s.rows && l in s.rows && s.rows[k].job == j && s.rows[l].job == j
      :: k.source == l.source ==> k == l
  }

  /** The source `reg` lists job `j` now, through a row its record `r` wrote. */
  predicate Lists(s: State, j: JobId, reg: Registration, r: Record) {
    && r.source == reg.key
    && reg.key in s.sources && s.sources[reg.key] == reg.precedence
    && r.Key() in s.rows
    && s.rows[r.Key()].job == j
    && s.rows[r.Key()].retired.None?
    && s.rows[r.Key()].payload == StoredPayload(r)
  }

  lemma FirstListedIsTheRow(s: State, j: JobId, reg: Registration, r: Record, seenAt: Instant)
    requires OneRowPerSource(s, j) && Lists(s, j, reg, r)
    requires s.rows[r.Key()].firstSeen <= seenAt
    ensures FirstListedAt(s, j, reg.key, seenAt) == s.rows[r.Key()].firstSeen
  {
    var dates := set k | k in s.rows && k.source == reg.key && s.rows[k].job == j :: s.rows[k].firstSeen;
    assert s.rows[r.Key()].firstSeen in dates;
    assert forall d :: d in dates ==> d == s.rows[r.Key()].firstSeen;
  }

  /** A voice that outranks a set of accounts is no worse than any live one of them. */
  lemma OutranksEach(
    rank: int, partial: bool, stated: nat, listedAt: Instant, accounts: set<Account>, rival: Account)
    requires Outranks(rank, partial, stated, listedAt, accounts)
    requires rival in accounts && rival.live
    ensures rank >= rival.rank
    ensures rank == rival.rank ==>
              || MoreComplete(partial, stated, rival.partial, rival.stated)
              || ((partial, stated) == (rival.partial, rival.stated) && listedAt < rival.firstSeen)
  {
    var owning := Owning(accounts);
    var top :| top in owning;
    assert OwnerOf(accounts).value.precedence == top.rank;
    if rank == rival.rank { assert rival in owning; }
  }

  /** Of any two sources that list a job, each through its one row, at most one
      takes the contested fields from all the others together. */
  lemma AtMostOneOwner(
    s: State, j: JobId,
    regA: Registration, a: Record, seenA: Instant,
    regB: Registration, b: Record, seenB: Instant)
    requires OneRowPerSource(s, j) && regA.key != regB.key
    requires Lists(s, j, regA, a) && s.rows[a.Key()].firstSeen <= seenA
    requires Lists(s, j, regB, b) && s.rows[b.Key()].firstSeen <= seenB
    ensures !(IncomingOutranks(s, j, regA, a, seenA) && IncomingOutranks(s, j, regB, b, seenB))
  {
    if IncomingOutranks(s, j, regA, a, seenA) && IncomingOutranks(s, j, regB, b, seenB) {
      FirstListedIsTheRow(s, j, regA, a, seenA);
      FirstListedIsTheRow(s, j, regB, b, seenB);
      var accountA, accountB := AccountOf(s, a.Key()), AccountOf(s, b.Key());
      assert accountB in RivalAccounts(s, j, regA.key);
      assert accountA in RivalAccounts(s, j, regB.key);
      OutranksEach(regA.precedence, a.partial, StatedFieldCount(a.fields),
                   s.rows[a.Key()].firstSeen, RivalAccounts(s, j, regA.key), accountB);
      OutranksEach(regB.precedence, b.partial, StatedFieldCount(b.fields),
                   s.rows[b.Key()].firstSeen, RivalAccounts(s, j, regB.key), accountA);
      assert false;
    }
  }
}
