/**
 * The document store: one map per collection plus the generator of fresh
 * identifiers, its invariants (fresh ids, the unique indexes, schema
 * validity) and the insertion-order scans behind `find` and `findOne`.
 */
module Db {
  import opened Wrappers
  import opened Http
  import opened Schema

  /**
   * Identifiers are handed out in increasing order from `nextId`, so scanning
   * keys in ascending order visits documents in insertion order.
   */
  datatype Store = Store(
    accounts: map<Id, Account>,
    companies: map<Id, Company>,
    applications: map<Id, Application>,
    nextId: Id)

  /** A document together with its identifier, as a reply serialises it. */
  datatype Entry<+V> = Entry(id: Id, doc: V)

  /** What a handler produces: the reply, the store after it, and the e-mails it dispatched. */
  datatype Response<+T> = Response(reply: Reply<T>, store: Store, notices: seq<Notice>)

  predicate FreshIds(s: Store) {
    && (forall k :: k in s.accounts ==> k < s.nextId)
    && (forall k :: k in s.companies ==> k < s.nextId)
    && (forall k :: k in s.applications ==> k < s.nextId)
  }

  /** The unique index on `email`. */
  predicate UniqueEmails(m: map<Id, Account>) {
    forall i, j :: i in m && j in m && m[i].email == m[j].email ==> i == j
  }

  /** The unique index on a listing's `name`. */
  predicate UniqueNames(m: map<Id, Company>) {
    forall i, j :: i in m && j in m && m[i].name == m[j].name ==> i == j
  }

  /** The compound unique index on (student, company). */
  predicate UniquePairs(m: map<Id, Application>) {
    forall i, j :: i in m && j in m && m[i].student == m[j].student && m[i].company == m[j].company ==> i == j
  }

  /** Every state the handlers can reach from an empty store. */
  predicate Valid(s: Store) {
    && FreshIds(s)
    && UniqueEmails(s.accounts)
    && UniqueNames(s.companies)
    && UniquePairs(s.applications)
    && (forall k :: k in s.accounts ==> WellFormedAccount(s.accounts[k]))
    && (forall k :: k in s.companies ==> WellFormedCompany(s.companies[k]))
  }

  function Empty(): (s: Store)
    ensures Valid(s)
  {
    Store(map[], map[], map[], 0)
  }

  predicate EmailTaken(m: map<Id, Account>, email: string) {
    exists k :: k in m && m[k].email == email
  }

  /** Whether saving `email` on account `id` would collide with another account. */
  predicate EmailTakenByOther(m: map<Id, Account>, id: Id, email: string) {
    exists k :: k in m && k != id && m[k].email == email
  }

  predicate NameTaken(m: map<Id, Company>, name: string) {
    exists k :: k in m && m[k].name == name
  }

  predicate NameTakenByOther(m: map<Id, Company>, id: Id, name: string) {
    exists k :: k in m && k != id && m[k].name == name
  }

  predicate HasApplied(m: map<Id, Application>, student: Id, company: Id) {
    exists k :: k in m && m[k].student == student && m[k].company == company
  }

  /** Saving a new version of an account keeps the store valid if it is well-formed and its e-mail is free. */
  lemma ReplaceAccountKeepsValid(s: Store, id: Id, a: Account)
    requires Valid(s) && id in s.accounts
    requires WellFormedAccount(a) && !EmailTakenByOther(s.accounts, id, a.email)
    ensures Valid(s.(accounts := s.accounts[id := a]))
  {
  }

  /** Saving a new version of a listing keeps the store valid if it is well-formed and its name is free. */
  lemma ReplaceCompanyKeepsValid(s: Store, id: Id, c: Company)
    requires Valid(s) && id in s.companies
    requires WellFormedCompany(c) && !NameTakenByOther(s.companies, id, c.name)
    ensures Valid(s.(companies := s.companies[id := c]))
  {
  }

  /** The keys below `n` whose documents satisfy `p`, in ascending (insertion) order. */
  function IdsWhere<V>(m: map<Id, V>, p: V -> bool, n: nat): (r: seq<Id>)
    ensures forall i :: 0 <= i < |r| ==> r[i] < n && r[i] in m && p(m[r[i]])
    ensures forall k :: 0 <= k < n && k in m && p(m[k]) ==> k in r
    ensures forall i, j :: 0 <= i < j < |r| ==> r[i] < r[j]
    ensures (forall k :: k in m ==> k < n) ==> forall k :: k in m && p(m[k]) ==> k in r
  {
    if n == 0 then []
    else
      var prefix := IdsWhere(m, p, n - 1);
      if n - 1 in m && p(m[n - 1]) then prefix + [n - 1] else prefix
  }

  /** `findOne`: the first key below `n`, in insertion order, whose document satisfies `p`. */
  function FirstWhere<V>(m: map<Id, V>, p: V -> bool, n: nat): (r: Option<Id>)
    ensures r.Some? ==> r.value < n && r.value in m && p(m[r.value])
    ensures r.Some? ==> forall k :: 0 <= k < r.value && k in m ==> !p(m[k])
    ensures r.None? ==> forall k :: 0 <= k < n && k in m ==> !p(m[k])
  {
    var ids := IdsWhere(m, p, n);
    if ids == [] then None
    else
      assert forall k :: 0 <= k < ids[0] && k in m && p(m[k]) ==> k in ids;
      Some(ids[0])
  }
}
