/**
 * The in-memory user store (`UserService` in `src/services/userService.ts`):
 * an ordered list of records and the counter its identifiers are made from,
 * with creation, lookup, searching and paging, update by merge, deletion,
 * duplicate checks, statistics and a reset. The simulated latency is dropped
 * and the clock is a parameter: `now` stands for `Date.now()`, `stamp`,
 * `created` and `updated` for readings of `new Date().toISOString()`.
 */
module UserStore {
  import opened Wrappers
  import opened Strings
  import opened UserModel

  /** The message `updateUser` and `deleteUser` throw for an unknown id. */
  const NotFound: string := "Usuário não encontrado"

  /**
   * The ids of the stored records were made from strictly increasing counters,
   * all below the next counter to hand out.
   */
  predicate IdsOrdered(users: seq<User>, nextId: nat) {
    nextId >= 1 &&
    (forall i, j | 0 <= i < j < |users| :: IdCounter(users[i].id) < IdCounter(users[j].id)) &&
    (forall i | 0 <= i < |users| :: IdCounter(users[i].id) < nextId)
  }

  predicate IdsDistinct(users: seq<User>) {
    forall i, j | 0 <= i < j < |users| :: users[i].id != users[j].id
  }

  /** No two stored records share an id. */
  lemma IdsOrderedDistinct(users: seq<User>, nextId: nat)
    requires IdsOrdered(users, nextId)
    ensures IdsDistinct(users)
  {
  }

  lemma IdsOrderedRemove(users: seq<User>, nextId: nat, k: int)
    requires IdsOrdered(users, nextId) && 0 <= k < |users|
    ensures IdsOrdered(users[..k] + users[k + 1..], nextId)
  {
    var rest := users[..k] + users[k + 1..];
    forall i | 0 <= i < |rest|
      ensures rest[i] == users[if i < k then i else i + 1]
    {
    }
  }

  // ---------------------------------------------------------------- lookup

  /** `findIndex` on the id: the first position holding `id`, or -1. */
  function FindIndex(users: seq<User>, id: string): (r: int)
    ensures -1 <= r < |users|
    ensures r == -1 <==> forall i | 0 <= i < |users| :: users[i].id != id
    ensures r >= 0 ==> users[r].id == id && forall j | 0 <= j < r :: users[j].id != id
  {
    if users == [] then -1
    else if users[0].id == id then 0
    else
      var k := FindIndex(users[1..], id);
      if k == -1 then -1 else k + 1
  }

  /** With distinct ids the record found is the only one holding `id`. */
  lemma FindIndexUnique(users: seq<User>, id: string, k: int)
    requires IdsDistinct(users) && 0 <= k < |users| && users[k].id == id
    ensures FindIndex(users, id) == k
  {
  }

  // ---------------------------------------------------------------- searching

  /** The case-insensitive match on name and e-mail, the exact match on cpf and phone. */
  predicate Matches(u: User, term: string) {
    Contains(Lower(u.name), term) || Contains(Lower(u.email), term) ||
    Contains(u.cpf, term) || Contains(u.phone, term)
  }

  /** `filter` with `Matches`. */
  function FilterMatching(users: seq<User>, term: string): seq<User> {
    if users == [] then []
    else (if Matches(users[0], term) then [users[0]] else []) + FilterMatching(users[1..], term)
  }

  /** The list `getUsers` pages through: all records for a blank search, the matching ones otherwise. */
  function SearchUsers(users: seq<User>, search: string): seq<User> {
    if Trim(search) == [] then users else FilterMatching(users, Trim(Lower(search)))
  }

  /** Filtering keeps exactly the matching records. */
  lemma {:induction false} FilterMatchingMembers(users: seq<User>, term: string)
    ensures forall u :: u in FilterMatching(users, term) <==> u in users && Matches(u, term)
  {
    if users != [] {
      FilterMatchingMembers(users[1..], term);
      assert users == [users[0]] + users[1..];
    }
  }

  /** Filtering works piece by piece, so it keeps the records in their stored order. */
  lemma {:induction false} FilterMatchingAppend(a: seq<User>, b: seq<User>, term: string)
    ensures FilterMatching(a + b, term) == FilterMatching(a, term) + FilterMatching(b, term)
  {
    if a != [] {
      assert (a + b)[0] == a[0] && (a + b)[1..] == a[1..] + b;
      FilterMatchingAppend(a[1..], b, term);
    } else {
      assert a + b == b;
    }
  }

  lemma {:induction false} FilterMatchingAll(users: seq<User>, term: string)
    requires forall i | 0 <= i < |users| :: Matches(users[i], term)
    ensures FilterMatching(users, term) == users
  {
    if users != [] {
      FilterMatchingAll(users[1..], term);
    }
  }

  /** An empty or blank search keeps every record in order; any other keeps exactly the matches. */
  lemma SearchUsersSpec(users: seq<User>, search: string)
    ensures IsBlank(search) ==> SearchUsers(users, search) == users
    ensures !IsBlank(search) ==>
      forall u :: u in SearchUsers(users, search) <==> u in users && Matches(u, Trim(Lower(search)))
  {
    TrimEmptyIffBlank(search);
    FilterMatchingMembers(users, Trim(Lower(search)));
  }

  // ---------------------------------------------------------------- paging

  /** `Math.ceil(total / limit)`. */
  function CeilDiv(total: nat, limit: int): (r: nat)
    requires limit >= 1
    ensures (r - 1) * limit < total <= r * limit
  {
    var q := (total + limit - 1) / limit;
    var rem := (total + limit - 1) % limit;
    assert total + limit - 1 == q * limit + rem;
    assert (q - 1) * limit == q * limit - limit;
    q
  }

  /** How `Array.prototype.slice` normalises an index: negative counts from the end, then clamp. */
  function JsIndex(i: int, len: nat): (k: nat)
    ensures k <= len
    ensures 0 <= i <= len ==> k == i
  {
    if i < 0 then (if len + i < 0 then 0 else len + i) else if i > len then len else i
  }

  /** `s.slice(start, end)`. */
  function JsSlice<T>(s: seq<T>, start: int, end: int): seq<T> {
    var a := JsIndex(start, |s|);
    var b := JsIndex(end, |s|);
    if a < b then s[a..b] else []
  }

  datatype PaginationParams = PaginationParams(page: int, limit: int, search: string)

  datatype PaginatedResponse = PaginatedResponse(
    data: seq<User>, total: nat, page: int, limit: int, totalPages: nat)

  /** The response `getUsers` builds from the searched list. */
  function Paginate(filtered: seq<User>, page: int, limit: int): PaginatedResponse
    requires limit >= 1
  {
    var start := (page - 1) * limit;
    PaginatedResponse(JsSlice(filtered, start, start + limit), |filtered|, page, limit,
                      CeilDiv(|filtered|, limit))
  }

  lemma SliceWindow(n: nat, start: int, limit: int)
    requires start >= 0 && limit >= 1
    ensures var a := JsIndex(start, n);
            var b := JsIndex(start + limit, n);
            (if a < b then b - a else 0) == Min(limit, Max(0, n - start)) &&
            (a < b ==> a == start)
  {
  }

  function Min(a: int, b: int): int { if a <= b then a else b }
  function Max(a: int, b: int): int { if a >= b then a else b }

  /** The window `slice(start, start + limit)` for a start that is not negative. */
  lemma WindowContents(filtered: seq<User>, start: int, limit: int)
    requires start >= 0 && limit >= 1
    ensures var d := JsSlice(filtered, start, start + limit);
            |d| == Min(limit, Max(0, |filtered| - start)) &&
            forall i | 0 <= i < |d| :: d[i] == filtered[start + i]
  {
    SliceWindow(|filtered|, start, limit);
    var b := JsIndex(start + limit, |filtered|);
    if JsIndex(start, |filtered|) < b {
      assert JsSlice(filtered, start, start + limit) == filtered[start..b];
    }
  }

  /** The counts of a response: the total as given and the ceiling of total over limit. */
  lemma PaginateTotals(filtered: seq<User>, page: int, limit: int)
    requires limit >= 1
    ensures var r := Paginate(filtered, page, limit);
            r.total == |filtered| && r.page == page && r.limit == limit &&
            (r.totalPages - 1) * limit < |filtered| <= r.totalPages * limit
  {
    var r := Paginate(filtered, page, limit);
    assert r.totalPages == CeilDiv(|filtered|, limit);
  }

  /**
   * Page `page` (from 1) holds the records from `(page-1)*limit` on, at most
   * `limit` of them, in their order in the searched list.
   */
  lemma PaginateSpec(filtered: seq<User>, page: int, limit: int)
    requires page >= 1 && limit >= 1
    ensures var r := Paginate(filtered, page, limit);
            var start := (page - 1) * limit;
            |r.data| == Min(limit, Max(0, |filtered| - start)) &&
            forall i | 0 <= i < |r.data| :: r.data[i] == filtered[start + i]
  {
    PaginateFrom(filtered, page, limit, (page - 1) * limit);
  }

  /** `PaginateSpec` with the start of the page named. */
  lemma PaginateFrom(filtered: seq<User>, page: int, limit: int, start: int)
    requires page >= 1 && limit >= 1 && start == (page - 1) * limit
    ensures var r := Paginate(filtered, page, limit);
            |r.data| == Min(limit, Max(0, |filtered| - start)) &&
            forall i | 0 <= i < |r.data| :: r.data[i] == filtered[start + i]
  {
    ProductNonNegative(page - 1, limit);
    assert Paginate(filtered, page, limit).data == JsSlice(filtered, start, start + limit);
    WindowContents(filtered, start, limit);
  }

  lemma ProductNonNegative(x: int, y: int)
    requires x >= 0 && y >= 0
    ensures x * y >= 0
  {
  }

  /** Page 0 is empty: its window ends at index 0. */
  lemma PaginatePageZero(filtered: seq<User>, limit: int)
    requires limit >= 1
    ensures Paginate(filtered, 0, limit).data == []
  {
  }

  // ---------------------------------------------------------------- duplicate checks

  /** Some record other than the excluded one has this e-mail, ignoring case. */
  predicate EmailInUse(users: seq<User>, email: string, excludeUserId: Option<string>) {
    exists i | 0 <= i < |users| :: Lower(users[i].email) == Lower(email) && excludeUserId != Some(users[i].id)
  }

  /** Some record other than the excluded one has exactly this CPF. */
  predicate CpfInUse(users: seq<User>, cpf: string, excludeUserId: Option<string>) {
    exists i | 0 <= i < |users| :: users[i].cpf == cpf && excludeUserId != Some(users[i].id)
  }

  /** A stored e-mail is in use under any casing, except for the record that holds it. */
  lemma EmailInUseStored(users: seq<User>, k: int, email: string)
    requires 0 <= k < |users| && Lower(email) == Lower(users[k].email)
    ensures EmailInUse(users, email, None)
    ensures IdsDistinct(users) && (forall i | 0 <= i < |users| && i != k :: Lower(users[i].email) != Lower(email))
            ==> !EmailInUse(users, email, Some(users[k].id))
  {
  }

  /** A stored CPF is in use, except for the record that holds it. */
  lemma CpfInUseStored(users: seq<User>, k: int)
    requires 0 <= k < |users|
    ensures CpfInUse(users, users[k].cpf, None)
    ensures IdsDistinct(users) && (forall i | 0 <= i < |users| && i != k :: users[i].cpf != users[k].cpf)
            ==> !CpfInUse(users, users[k].cpf, Some(users[k].id))
  {
  }

  /** Upper-casing an e-mail does not get it past the check. */
  lemma EmailInUseIgnoresCase(users: seq<User>, email: string, excludeUserId: Option<string>)
    ensures EmailInUse(users, Upper(email), excludeUserId) == EmailInUse(users, email, excludeUserId)
  {
    LowerUpper(email);
  }

  // ---------------------------------------------------------------- statistics

  datatype UserStats = UserStats(total: nat, byState: map<string, nat>, recentlyAdded: nat)

  /** The count a map holds for a key; a missing key counts 0 (`byState[state] || 0`). */
  function CountOf(m: map<string, nat>, key: string): nat {
    if key in m then m[key] else 0
  }

  /** `byState` after the `forEach` has visited `users`. */
  function CountByState(users: seq<User>): map<string, nat> {
    if users == [] then map[]
    else
      var m := CountByState(users[..|users| - 1]);
      var uf := users[|users| - 1].address.uf;
      m[uf := CountOf(m, uf) + 1]
  }

  /** `recentlyAdded` after the `forEach` has visited `users`. */
  function CountRecent(users: seq<User>, isRecent: string -> bool): nat {
    if users == [] then 0
    else CountRecent(users[..|users| - 1], isRecent) + (if isRecent(users[|users| - 1].createdAt) then 1 else 0)
  }

  /** The number of records in state `uf`. */
  function CountUf(users: seq<User>, uf: string): nat {
    if users == [] then 0
    else CountUf(users[..|users| - 1], uf) + (if users[|users| - 1].address.uf == uf then 1 else 0)
  }

  /** The states of the records, each once, in order of first appearance. */
  function DistinctUfs(users: seq<User>): seq<string> {
    if users == [] then []
    else
      var d := DistinctUfs(users[..|users| - 1]);
      var uf := users[|users| - 1].address.uf;
      if uf in d then d else d + [uf]
  }

  function SumCounts(m: map<string, nat>, keys: seq<string>): nat {
    if keys == [] then 0 else CountOf(m, keys[0]) + SumCounts(m, keys[1..])
  }

  predicate Distinct(keys: seq<string>) {
    forall i, j | 0 <= i < j < |keys| :: keys[i] != keys[j]
  }

  /** Every state's count is the number of records in that state; only states that occur are keys. */
  lemma {:induction false} CountByStateSpec(users: seq<User>)
    ensures forall uf :: CountOf(CountByState(users), uf) == CountUf(users, uf)
    ensures forall uf :: uf in CountByState(users) <==> uf in DistinctUfs(users)
    ensures Distinct(DistinctUfs(users))
  {
    if users != [] {
      CountByStateSpec(users[..|users| - 1]);
    }
  }

  /** The keys of the per-state count are exactly the `uf`s of the stored records. */
  lemma {:induction false} DistinctUfsSpec(users: seq<User>)
    ensures forall uf :: uf in DistinctUfs(users) <==> exists i | 0 <= i < |users| :: users[i].address.uf == uf
  {
    if users != [] {
      var init := users[..|users| - 1];
      DistinctUfsSpec(init);
      assert forall i | 0 <= i < |init| :: init[i] == users[i];
    }
  }

  lemma {:induction false} SumCountsAppend(m: map<string, nat>, keys: seq<string>, k: string)
    ensures SumCounts(m, keys + [k]) == SumCounts(m, keys) + CountOf(m, k)
  {
    if keys != [] {
      assert (keys + [k])[1..] == keys[1..] + [k];
      SumCountsAppend(m, keys[1..], k);
    }
  }

  lemma {:induction false} SumCountsBump(m: map<string, nat>, keys: seq<string>, k: string)
    requires Distinct(keys)
    ensures SumCounts(m[k := CountOf(m, k) + 1], keys) == SumCounts(m, keys) + (if k in keys then 1 else 0)
  {
    if keys != [] {
      SumCountsBump(m, keys[1..], k);
      assert k in keys <==> k == keys[0] || k in keys[1..];
      assert keys[0] == k ==> k !in keys[1..];
    }
  }

  /** The per-state counts add up to the number of records. */
  lemma {:induction false} ByStateSumsToTotal(users: seq<User>)
    ensures SumCounts(CountByState(users), DistinctUfs(users)) == |users|
  {
    if users != [] {
      var init := users[..|users| - 1];
      var uf := users[|users| - 1].address.uf;
      var m := CountByState(init);
      var d := DistinctUfs(init);
      ByStateSumsToTotal(init);
      CountByStateSpec(init);
      SumCountsBump(m, d, uf);
      if uf !in d {
        SumCountsAppend(m[uf := CountOf(m, uf) + 1], d, uf);
      }
    }
  }

  // ---------------------------------------------------------------- the store

  class UserService {
    var users: seq<User>
    var nextId: nat

    ghost predicate Valid()
      reads this
    {
      IdsOrdered(users, nextId)
    }

    constructor ()
      ensures Valid() && users == [] && nextId == 1
    {
      users := [];
      nextId := 1;
    }

    /** `generateId`: an id from the current counter and the clock, then the counter moves on. */
    method GenerateId(now: nat) returns (id: string)
      modifies this
      ensures id == MakeId(old(nextId), now)
      ensures nextId == old(nextId) + 1 && users == old(users)
    {
      id := MakeId(nextId, now);
      nextId := nextId + 1;
    }

    /** `createUser`: appends one new record with a fresh id; the records already stored stay as they were. */
    method CreateUser(data: CreateUserData, now: nat, created: string, updated: string) returns (user: User)
      requires Valid()
      modifies this
      ensures Valid()
      ensures user == NewUser(data, MakeId(old(nextId), now), created, updated)
      ensures users == old(users) + [user] && nextId == old(nextId) + 1
    {
      var id := GenerateId(now);
      IdCounterOfMakeId(nextId - 1, now);
      user := NewUser(data, id, created, updated);
      users := users + [user];
    }

    /** `getUserById`: the first record holding `id`, if any. */
    method GetUserById(id: string) returns (user: Option<User>)
      ensures user.None? <==> forall i | 0 <= i < |users| :: users[i].id != id
      ensures user.Some? ==> user.value.id == id && user.value in users
      ensures user.Some? ==> user.value == users[FindIndex(users, id)]
    {
      var k := FindIndex(users, id);
      user := if k == -1 then None else Some(users[k]);
    }

    /** `getUsers`: searches, then cuts out the requested page; the store is read only. */
    method GetUsers(params: PaginationParams) returns (response: PaginatedResponse)
      requires params.limit >= 1
      ensures response == Paginate(SearchUsers(users, params.search), params.page, params.limit)
    {
      var filtered := users;
      if Trim(params.search) != [] {
        var term := Trim(Lower(params.search));
        filtered := FilterMatching(filtered, term);
      }
      var total := |filtered|;
      var totalPages := CeilDiv(total, params.limit);
      var startIndex := (params.page - 1) * params.limit;
      var endIndex := startIndex + params.limit;
      response := PaginatedResponse(JsSlice(filtered, startIndex, endIndex), total, params.page,
                                    params.limit, totalPages);
    }

    /**
     * `updateUser`: an unknown id fails with `NotFound` and changes nothing;
     * otherwise the merged record replaces the old one at the same position.
     */
    method UpdateUser(data: UpdateUserData, stamp: string) returns (result: Result<User>)
      requires Valid()
      modifies this
      ensures Valid() && nextId == old(nextId)
      ensures var k := FindIndex(old(users), data.id);
              if k == -1 then result == Failure(NotFound) && users == old(users)
              else result == Success(Merge(old(users)[k], data, stamp)) && users == old(users)[k := result.value]
    {
      var k := FindIndex(users, data.id);
      if k == -1 {
        return Failure(NotFound);
      }
      var updated := Merge(users[k], data, stamp);
      users := users[k := updated];
      result := Success(updated);
    }

    /**
     * `deleteUser`: an unknown id fails with `NotFound` and changes nothing;
     * otherwise the record is cut out and no record with that id is left.
     */
    method DeleteUser(id: string) returns (result: Result<bool>)
      requires Valid()
      modifies this
      ensures Valid() && nextId == old(nextId)
      ensures var k := FindIndex(old(users), id);
              if k == -1 then result == Failure(NotFound) && users == old(users)
              else result == Success(true) && users == old(users)[..k] + old(users)[k + 1..]
      ensures result.Success? ==> forall i | 0 <= i < |users| :: users[i].id != id
    {
      var k := FindIndex(users, id);
      if k == -1 {
        return Failure(NotFound);
      }
      IdsOrderedDistinct(users, nextId);
      IdsOrderedRemove(users, nextId, k);
      var rest := users[..k] + users[k + 1..];
      forall i | 0 <= i < |rest|
        ensures rest[i].id != id
      {
        assert rest[i] == users[if i < k then i else i + 1];
      }
      users := rest;
      result := Success(true);
    }

    /** `isEmailInUse`. */
    method IsEmailInUse(email: string, excludeUserId: Option<string>) returns (inUse: bool)
      ensures inUse == EmailInUse(users, email, excludeUserId)
    {
      inUse := false;
      var i := 0;
      while i < |users|
        invariant 0 <= i <= |users|
        invariant inUse <==> exists j | 0 <= j < i :: Lower(users[j].email) == Lower(email) && excludeUserId != Some(users[j].id)
      {
        if Lower(users[i].email) == Lower(email) && excludeUserId != Some(users[i].id) {
          inUse := true;
        }
        i := i + 1;
      }
    }

    /** `isCpfInUse`. */
    method IsCpfInUse(cpf: string, excludeUserId: Option<string>) returns (inUse: bool)
      ensures inUse == CpfInUse(users, cpf, excludeUserId)
    {
      inUse := false;
      var i := 0;
      while i < |users|
        invariant 0 <= i <= |users|
        invariant inUse <==> exists j | 0 <= j < i :: users[j].cpf == cpf && excludeUserId != Some(users[j].id)
      {
        if users[i].cpf == cpf && excludeUserId != Some(users[i].id) {
          inUse := true;
        }
        i := i + 1;
      }
    }

    /**
     * `getUserStats`: one pass over the records counting them per state and
     * counting those `isRecent` accepts (created within the last week).
     */
    method GetUserStats(isRecent: string -> bool) returns (stats: UserStats)
      ensures stats == UserStats(|users|, CountByState(users), CountRecent(users, isRecent))
    {
      var byState: map<string, nat> := map[];
      var recentlyAdded: nat := 0;
      for i := 0 to |users|
        invariant byState == CountByState(users[..i])
        invariant recentlyAdded == CountRecent(users[..i], isRecent)
      {
        assert users[..i + 1][..i] == users[..i];
        var state := users[i].address.uf;
        byState := byState[state := CountOf(byState, state) + 1];
        if isRecent(users[i].createdAt) {
          recentlyAdded := recentlyAdded + 1;
        }
      }
      assert users[..|users|] == users;
      stats := UserStats(|users|, byState, recentlyAdded);
    }

    /** `clearAllUsers`: empties the store and restarts the counter. */
    method ClearAllUsers()
      modifies this
      ensures Valid() && users == [] && nextId == 1
    {
      users := [];
      nextId := 1;
    }
  }
}
