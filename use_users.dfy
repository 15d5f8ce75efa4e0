/**
 * The orchestration hooks of `src/hooks/useUsers.ts`: the filter payloads of
 * `useFilter`, the list load of `useUsers`, and the create, edit and remove
 * operations of `useUserOperations`. Each operation checks for duplicates
 * through the store, calls the store, and dispatches the reducer actions
 * that mirror the outcome. The store is the object `svc`; the reducer state
 * is threaded through as a value, one `Reduce` per dispatch. A thrown error
 * is a `Failure` holding its message, after the hook has recorded it in the
 * state.
 */
module UseUsers {
  import opened Wrappers
  import opened Strings
  import opened UserModel
  import opened UserContext
  import opened UserStore

  const EmailTakenMessage: string := "Este e-mail já está sendo usado por outro usuário"

  const CpfTakenMessage: string := "Este CPF já está sendo usado por outro usuário"

  // ---------------------------------------------------------------- useFilter

  /** `updateSearch`: a new search always goes back to page 1. */
  function UpdateSearch(search: string): FilterPatch {
    FilterPatch(Some(search), Some(1), None)
  }

  /** `updatePage`. */
  function UpdatePage(page: int): FilterPatch {
    FilterPatch(None, Some(page), None)
  }

  /** `updateLimit`: a new page size goes back to page 1. */
  function UpdateLimit(limit: int): FilterPatch {
    FilterPatch(None, Some(1), Some(limit))
  }

  /** `resetFilter`. */
  function ResetFilter(): FilterPatch {
    FilterPatch(Some(""), Some(1), Some(10))
  }

  lemma UpdateSearchSpec(state: State, search: string)
    ensures Reduce(state, SetFilter(UpdateSearch(search))).filter == Filter(search, 1, state.filter.limit)
  {
  }

  lemma UpdatePageSpec(state: State, page: int)
    ensures Reduce(state, SetFilter(UpdatePage(page))).filter == state.filter.(page := page)
  {
  }

  lemma UpdateLimitSpec(state: State, limit: int)
    ensures Reduce(state, SetFilter(UpdateLimit(limit))).filter == Filter(state.filter.search, 1, limit)
  {
  }

  /** Resetting gives the initial filter, and only the filter changes. */
  lemma ResetFilterSpec(state: State)
    ensures Reduce(state, SetFilter(ResetFilter())) == state.(filter := InitialFilter)
  {
  }

  // ---------------------------------------------------------------- starting and ending an operation

  /**
   * The first two dispatches of every operation as the hooks write them:
   * `setLoading(true)` and then `setError(null)`.
   */
  function BeginAsWritten(state: State): State {
    Reduce(Reduce(state, SetLoading(true)), SetError(None))
  }

  /** SET_ERROR forces loading off, so the second dispatch undoes the first: nothing shows as loading. */
  lemma BeginAsWrittenIsNotLoading(state: State)
    ensures !BeginAsWritten(state).loading && BeginAsWritten(state).error.None?
    ensures BeginAsWritten(state) == state.(loading := false, error := None)
  {
  }

  /** The intended start of an operation: the error cleared and the loading flag on. */
  function Begin(state: State): (r: State)
    ensures r == state.(loading := true, error := None)
  {
    Reduce(Reduce(state, SetError(None)), SetLoading(true))
  }

  /**
   * The two starts differ only in the loading flag, which every operation turns
   * off again at its end (the `finally` branch), so both give the same final state.
   */
  lemma BeginAgreesAtEnd(state: State, actions: seq<Action>)
    requires forall i | 0 <= i < |actions| :: !actions[i].SetLoading?
    ensures BeginAsWritten(state) == Begin(state).(loading := false)
    ensures Reduce(ReduceAll(BeginAsWritten(state), actions), SetLoading(false)) ==
            Reduce(ReduceAll(Begin(state), actions), SetLoading(false))
  {
    ReduceAllIgnoresLoading(Begin(state), actions);
  }

  /** Dispatching a sequence of actions in order. */
  function ReduceAll(state: State, actions: seq<Action>): State
    decreases |actions|
  {
    if actions == [] then state else ReduceAll(Reduce(state, actions[0]), actions[1..])
  }

  /** Actions other than SET_LOADING never look at the loading flag. */
  lemma {:induction false} ReduceAllIgnoresLoading(state: State, actions: seq<Action>)
    requires forall i | 0 <= i < |actions| :: !actions[i].SetLoading?
    ensures ReduceAll(state.(loading := false), actions).(loading := false) ==
            ReduceAll(state, actions).(loading := false)
    decreases |actions|
  {
    if actions != [] {
      var s1, s2 := Reduce(state.(loading := false), actions[0]), Reduce(state, actions[0]);
      ReduceAllIgnoresLoading(s2, actions[1..]);
      if s1 != s2 {
        assert s1 == s2.(loading := false);
      }
    }
  }

  /** The catch and finally branches: record the message, then stop loading. */
  function Fail(state: State, message: string): (r: State)
    ensures r == state.(loading := false, error := Some(message))
  {
    Reduce(Reduce(state, SetError(Some(message))), SetLoading(false))
  }

  // ---------------------------------------------------------------- useUsers.loadUsers

  /**
   * `loadUsers`: asks the store for the page the filter names and copies the
   * records and the totals into the state.
   */
  method LoadUsers(svc: UserService, state: State) returns (next: State)
    requires state.filter.limit >= 1
    ensures var r := Paginate(SearchUsers(svc.users, state.filter.search), state.filter.page, state.filter.limit);
            next == state.(users := r.data, totalUsers := r.total, totalPages := r.totalPages,
                           loading := false, error := None)
  {
    var s := BeginAsWritten(state);
    var response := svc.GetUsers(PaginationParams(state.filter.page, state.filter.limit, state.filter.search));
    s := Reduce(s, SetUsers(response.data));
    s := Reduce(s, SetPagination(response.total, response.totalPages));
    next := Reduce(s, SetLoading(false));
  }

  // ---------------------------------------------------------------- useUserOperations

  /**
   * `createUser`: refuses a taken e-mail (ignoring case), then a taken CPF,
   * without touching the store; otherwise stores the new record, appends it
   * to the list on screen and closes the modal.
   */
  method CreateUser(svc: UserService, state: State, data: CreateUserData, now: nat, created: string,
                    updated: string)
    returns (result: Result<User>, next: State)
    requires svc.Valid()
    modifies svc
    ensures svc.Valid()
    ensures EmailInUse(old(svc.users), data.email, None) ==>
      result == Failure(EmailTakenMessage) && svc.users == old(svc.users) && svc.nextId == old(svc.nextId)
    ensures !EmailInUse(old(svc.users), data.email, None) && CpfInUse(old(svc.users), data.cpf, None) ==>
      result == Failure(CpfTakenMessage) && svc.users == old(svc.users) && svc.nextId == old(svc.nextId)
    ensures !EmailInUse(old(svc.users), data.email, None) && !CpfInUse(old(svc.users), data.cpf, None) ==>
      result == Success(NewUser(data, MakeId(old(svc.nextId), now), created, updated)) &&
      svc.users == old(svc.users) + [result.value] && svc.nextId == old(svc.nextId) + 1
    ensures result.Success? ==>
      next == state.(users := state.users + [result.value], loading := false, error := None, modal := ClosedModal)
    ensures result.Failure? ==> next == state.(loading := false, error := Some(result.error))
  {
    var s := BeginAsWritten(state);
    var emailExists := svc.IsEmailInUse(data.email, None);
    if emailExists {
      result := Failure(EmailTakenMessage);
      next := Fail(s, result.error);
      return;
    }
    var cpfExists := svc.IsCpfInUse(data.cpf, None);
    if cpfExists {
      result := Failure(CpfTakenMessage);
      next := Fail(s, result.error);
      return;
    }
    var user := svc.CreateUser(data, now, created, updated);
    s := Reduce(s, AddUser(user));
    s := Reduce(s, CloseModal);
    next := Reduce(s, SetLoading(false));
    result := Success(user);
  }

  /** `if (value)`: present and not the empty string. */
  predicate Supplied(value: Option<string>) {
    value.Some? && value.value != ""
  }

  /**
   * `editUser`: checks a supplied e-mail and a supplied CPF against every other
   * record, then updates the store; the list on screen gets the updated record
   * and the modal closes. Any failure leaves the store unchanged.
   */
  method EditUser(svc: UserService, state: State, data: UpdateUserData, stamp: string)
    returns (result: Result<User>, next: State)
    requires svc.Valid()
    modifies svc
    ensures svc.Valid() && svc.nextId == old(svc.nextId)
    ensures var emailTaken := Supplied(data.email) && EmailInUse(old(svc.users), data.email.value, Some(data.id));
            var cpfTaken := Supplied(data.cpf) && CpfInUse(old(svc.users), data.cpf.value, Some(data.id));
            var k := FindIndex(old(svc.users), data.id);
            if emailTaken then result == Failure(EmailTakenMessage) && svc.users == old(svc.users)
            else if cpfTaken then result == Failure(CpfTakenMessage) && svc.users == old(svc.users)
            else if k == -1 then result == Failure(NotFound) && svc.users == old(svc.users)
            else result == Success(Merge(old(svc.users)[k], data, stamp)) &&
                 svc.users == old(svc.users)[k := result.value]
    ensures result.Success? ==>
      next == state.(users := ReplaceById(state.users, result.value), loading := false, error := None,
                     modal := ClosedModal)
    ensures result.Failure? ==> next == state.(loading := false, error := Some(result.error))
  {
    var s := BeginAsWritten(state);
    if Supplied(data.email) {
      var emailExists := svc.IsEmailInUse(data.email.value, Some(data.id));
      if emailExists {
        result := Failure(EmailTakenMessage);
        next := Fail(s, result.error);
        return;
      }
    }
    if Supplied(data.cpf) {
      var cpfExists := svc.IsCpfInUse(data.cpf.value, Some(data.id));
      if cpfExists {
        result := Failure(CpfTakenMessage);
        next := Fail(s, result.error);
        return;
      }
    }
    result := svc.UpdateUser(data, stamp);
    if result.Failure? {
      next := Fail(s, result.error);
      return;
    }
    s := Reduce(s, UpdateUser(result.value));
    assert s == state.(users := ReplaceById(state.users, result.value), loading := false, error := None);
    s := Reduce(s, CloseModal);
    next := Reduce(s, SetLoading(false));
  }

  /**
   * `removeUser`: deletes the record from the store and then from the list on
   * screen; an unknown id records the error and leaves both lists alone.
   */
  method RemoveUser(svc: UserService, state: State, userId: string) returns (result: Result<bool>, next: State)
    requires svc.Valid()
    modifies svc
    ensures svc.Valid() && svc.nextId == old(svc.nextId)
    ensures var k := FindIndex(old(svc.users), userId);
            if k == -1 then
              result == Failure(NotFound) && svc.users == old(svc.users) &&
              next == state.(loading := false, error := Some(NotFound))
            else
              result == Success(true) && svc.users == old(svc.users)[..k] + old(svc.users)[k + 1..] &&
              next == state.(users := RemoveById(state.users, userId), loading := false, error := None)
  {
    var s := BeginAsWritten(state);
    result := svc.DeleteUser(userId);
    if result.Failure? {
      next := Fail(s, result.error);
      return;
    }
    s := Reduce(s, DeleteUser(userId));
    next := Reduce(s, SetLoading(false));
  }

  // ---------------------------------------------------------------- the checks the operations rely on

  /** A second creation with the same e-mail in another casing is refused. */
  lemma CreatedEmailIsTaken(users: seq<User>, data: CreateUserData, id: string, created: string, updated: string,
                            email: string)
    requires Lower(email) == Lower(data.email)
    ensures EmailInUse(users + [NewUser(data, id, created, updated)], email, None)
  {
    var all := users + [NewUser(data, id, created, updated)];
    assert all[|users|].email == data.email;
  }

  /** A second creation with the same CPF is refused. */
  lemma CreatedCpfIsTaken(users: seq<User>, data: CreateUserData, id: string, created: string, updated: string)
    ensures CpfInUse(users + [NewUser(data, id, created, updated)], data.cpf, None)
  {
    var all := users + [NewUser(data, id, created, updated)];
    assert all[|users|].cpf == data.cpf;
  }

  /**
   * An edit that keeps the record's own e-mail passes the check, since the
   * record itself is excluded, as long as no other record has that e-mail.
   */
  lemma OwnEmailPasses(users: seq<User>, k: int)
    requires IdsDistinct(users) && 0 <= k < |users|
    requires forall i | 0 <= i < |users| && i != k :: Lower(users[i].email) != Lower(users[k].email)
    ensures !EmailInUse(users, users[k].email, Some(users[k].id))
  {
  }

  /** Likewise for the record's own CPF. */
  lemma OwnCpfPasses(users: seq<User>, k: int)
    requires IdsDistinct(users) && 0 <= k < |users|
    requires forall i | 0 <= i < |users| && i != k :: users[i].cpf != users[k].cpf
    ensures !CpfInUse(users, users[k].cpf, Some(users[k].id))
  {
  }

  /**
   * After a successful edit or removal, the list on screen changed the way the
   * store did, provided it showed the store's records.
   */
  lemma ScreenFollowsStore(users: seq<User>, k: int, updated: User)
    requires IdsDistinct(users) && 0 <= k < |users| && updated.id == users[k].id
    ensures ReplaceById(users, updated) == users[k := updated]
    ensures RemoveById(users, users[k].id) == users[..k] + users[k + 1..]
  {
    ReplaceByIdSingle(users, updated, k);
    RemoveByIdSingle(users, k);
  }
}
