/**
 * The UI state machine (`userReducer` in `src/context/UserContext.tsx`): the
 * list on screen, the loading and error flags, the modal, the filter and the
 * pagination totals, and how each action of `UserAction` transforms them.
 * States are values, so returning the old state and returning an equal copy
 * are the same here.
 */
module UserContext {
  import opened Wrappers
  import opened UserModel
  import UserStore

  datatype Mode = Create | Edit | View

  datatype Modal = Modal(isOpen: bool, mode: Mode, selectedUser: Option<string>)

  datatype Filter = Filter(search: string, page: int, limit: int)

  /** `Partial<FilterState>`: the keys an update supplies. */
  datatype FilterPatch = FilterPatch(search: Option<string>, page: Option<int>, limit: Option<int>)

  datatype State = State(
    users: seq<User>, loading: bool, error: Option<string>, modal: Modal, filter: Filter,
    totalUsers: int, totalPages: int)

  /** `UserAction`, plus `Other` for an action of any other type, which the `default` branch handles. */
  datatype Action =
    | SetUsers(list: seq<User>)
    | AddUser(user: User)
    | UpdateUser(user: User)
    | DeleteUser(deletedId: string)
    | SetLoading(loading: bool)
    | SetError(error: Option<string>)
    | OpenModal(mode: Mode, userId: Option<string>)
    | CloseModal
    | SetFilter(patch: FilterPatch)
    | SetPagination(total: int, totalPages: int)
    | Other

  const ClosedModal: Modal := Modal(false, Create, None)

  const InitialFilter: Filter := Filter("", 1, 10)

  const InitialState: State := State([], false, None, ClosedModal, InitialFilter, 0, 0)

  /** The `map` of UPDATE_USER: every record with the payload's id becomes the payload. */
  function ReplaceById(users: seq<User>, user: User): seq<User> {
    seq(|users|, i requires 0 <= i < |users| => if users[i].id == user.id then user else users[i])
  }

  /** The `filter` of DELETE_USER: drops every record with the id. */
  function RemoveById(users: seq<User>, id: string): seq<User> {
    if users == [] then []
    else (if users[0].id == id then [] else [users[0]]) + RemoveById(users[1..], id)
  }

  /** `{ ...filter, ...patch }`. */
  function MergeFilter(filter: Filter, patch: FilterPatch): Filter {
    Filter(patch.search.GetOr(filter.search), patch.page.GetOr(filter.page), patch.limit.GetOr(filter.limit))
  }

  /** `userReducer`. */
  function Reduce(state: State, action: Action): State {
    match action
    case SetUsers(list) => state.(users := list, error := None)
    case AddUser(user) => state.(users := state.users + [user], error := None)
    case UpdateUser(user) => state.(users := ReplaceById(state.users, user), error := None)
    case DeleteUser(id) => state.(users := RemoveById(state.users, id), error := None)
    case SetLoading(loading) => state.(loading := loading, error := if loading then None else state.error)
    case SetError(error) => state.(error := error, loading := false)
    case OpenModal(mode, userId) => state.(modal := Modal(true, mode, userId))
    case CloseModal => state.(modal := ClosedModal)
    case SetFilter(patch) =>
      var newFilter := MergeFilter(state.filter, patch);
      if newFilter == state.filter then state else state.(filter := newFilter)
    case SetPagination(total, totalPages) => state.(totalUsers := total, totalPages := totalPages)
    case Other => state
  }

  // ---------------------------------------------------------------- the initial state

  lemma InitialStateSpec()
    ensures InitialState.users == [] && !InitialState.loading && InitialState.error.None?
    ensures !InitialState.modal.isOpen && InitialState.modal.mode == Create && InitialState.modal.selectedUser.None?
    ensures InitialState.filter.search == "" && InitialState.filter.page == 1 && InitialState.filter.limit == 10
    ensures InitialState.totalUsers == 0 && InitialState.totalPages == 0
  {
  }

  // ---------------------------------------------------------------- the list actions

  /** SET_USERS replaces the list and ADD_USER appends at the end; both clear the error. */
  lemma ReduceListSpec(state: State, list: seq<User>, user: User)
    ensures Reduce(state, SetUsers(list)) == state.(users := list, error := None)
    ensures var r := Reduce(state, AddUser(user));
            |r.users| == |state.users| + 1 && r.users[..|state.users|] == state.users &&
            r.users[|state.users|] == user && r.error.None?
  {
    var r := Reduce(state, AddUser(user));
    assert r.users[..|state.users|] == state.users;
  }

  /**
   * UPDATE_USER keeps the length and the order, puts the payload at every
   * position holding its id, leaves every other record alone and clears the error.
   */
  lemma ReduceUpdateSpec(state: State, user: User)
    ensures var r := Reduce(state, UpdateUser(user));
            |r.users| == |state.users| && r.error.None? &&
            (forall i | 0 <= i < |r.users| && state.users[i].id == user.id :: r.users[i] == user) &&
            (forall i | 0 <= i < |r.users| && state.users[i].id != user.id :: r.users[i] == state.users[i])
    ensures (forall i | 0 <= i < |state.users| :: state.users[i].id != user.id) ==>
            Reduce(state, UpdateUser(user)).users == state.users
  {
  }

  /** With distinct ids, UPDATE_USER writes the one slot the store's update writes. */
  lemma ReplaceByIdSingle(users: seq<User>, user: User, k: int)
    requires UserStore.IdsDistinct(users) && 0 <= k < |users| && users[k].id == user.id
    ensures ReplaceById(users, user) == users[k := user]
  {
  }

  /** DELETE_USER keeps exactly the records whose id differs. */
  lemma {:induction false} RemoveByIdMembers(users: seq<User>, id: string)
    ensures forall u :: u in RemoveById(users, id) <==> u in users && u.id != id
    ensures |RemoveById(users, id)| <= |users|
  {
    if users != [] {
      RemoveByIdMembers(users[1..], id);
      assert users == [users[0]] + users[1..];
    }
  }

  /** DELETE_USER works piece by piece, so the records that stay keep their order. */
  lemma {:induction false} RemoveByIdAppend(a: seq<User>, b: seq<User>, id: string)
    ensures RemoveById(a + b, id) == RemoveById(a, id) + RemoveById(b, id)
  {
    if a != [] {
      assert (a + b)[0] == a[0] && (a + b)[1..] == a[1..] + b;
      RemoveByIdAppend(a[1..], b, id);
    } else {
      assert a + b == b;
    }
  }

  /** With distinct ids, the records before and after position `k` all have other ids. */
  lemma OthersHaveOtherIds(users: seq<User>, k: int)
    requires UserStore.IdsDistinct(users) && 0 <= k < |users|
    ensures forall u | u in users[..k] :: u.id != users[k].id
    ensures forall u | u in users[k + 1..] :: u.id != users[k].id
  {
  }

  /** No record with the id is present, so there is nothing to drop. */
  lemma {:induction false} RemoveByIdAbsent(users: seq<User>, id: string)
    requires forall u | u in users :: u.id != id
    ensures RemoveById(users, id) == users
  {
    if users != [] {
      assert users[0] in users;
      assert forall u | u in users[1..] :: u in users;
      RemoveByIdAbsent(users[1..], id);
    }
  }

  /** Dropping the id of the one record that has it cuts out just that record. */
  lemma RemoveByIdSplit(before: seq<User>, x: User, after: seq<User>)
    requires forall u | u in before :: u.id != x.id
    requires forall u | u in after :: u.id != x.id
    ensures RemoveById(before + [x] + after, x.id) == before + after
  {
    var tail := [x] + after;
    assert RemoveById(tail, x.id) == after by {
      RemoveByIdAbsent(after, x.id);
      assert RemoveById([x], x.id) == [] + RemoveById([], x.id);
      RemoveByIdAppend([x], after, x.id);
    }
    assert RemoveById(before + tail, x.id) == before + after by {
      RemoveByIdAbsent(before, x.id);
      RemoveByIdAppend(before, tail, x.id);
    }
    assert before + [x] + after == before + tail;
  }

  /** When only position `k` holds its id, dropping that id cuts out position `k`. */
  lemma RemoveByIdAt(users: seq<User>, k: int)
    requires 0 <= k < |users|
    requires forall u | u in users[..k] :: u.id != users[k].id
    requires forall u | u in users[k + 1..] :: u.id != users[k].id
    ensures RemoveById(users, users[k].id) == users[..k] + users[k + 1..]
  {
    RemoveByIdSplit(users[..k], users[k], users[k + 1..]);
    AroundIndex(users, k);
  }

  /** A sequence is what comes before position `k`, the element there, and what comes after. */
  lemma AroundIndex(users: seq<User>, k: int)
    requires 0 <= k < |users|
    ensures users[..k] + [users[k]] + users[k + 1..] == users
  {
  }

  /** With distinct ids, DELETE_USER removes the one record the store's delete cuts out. */
  lemma RemoveByIdSingle(users: seq<User>, k: int)
    requires UserStore.IdsDistinct(users) && 0 <= k < |users|
    ensures RemoveById(users, users[k].id) == users[..k] + users[k + 1..]
  {
    OthersHaveOtherIds(users, k);
    RemoveByIdAt(users, k);
  }

  lemma ReduceDeleteSpec(state: State, id: string)
    ensures var r := Reduce(state, DeleteUser(id));
            r.error.None? && (forall u :: u in r.users <==> u in state.users && u.id != id)
  {
    RemoveByIdMembers(state.users, id);
  }

  // ---------------------------------------------------------------- flags, modal, filter, pagination

  /** SET_LOADING(true) clears the error, SET_LOADING(false) keeps it; SET_ERROR stops loading. */
  lemma ReduceFlagsSpec(state: State, loading: bool, error: Option<string>)
    ensures Reduce(state, SetLoading(true)) == state.(loading := true, error := None)
    ensures Reduce(state, SetLoading(false)) == state.(loading := false)
    ensures Reduce(state, SetError(error)) == state.(error := error, loading := false)
  {
  }

  /** OPEN_MODAL opens in the given mode for the given record; CLOSE_MODAL resets to closed "create". */
  lemma ReduceModalSpec(state: State, mode: Mode, userId: Option<string>)
    ensures Reduce(state, OpenModal(mode, userId)).modal == Modal(true, mode, userId)
    ensures Reduce(state, CloseModal).modal == Modal(false, Create, None)
    ensures Reduce(Reduce(state, OpenModal(mode, userId)), CloseModal) == state.(modal := ClosedModal)
  {
  }

  /**
   * SET_FILTER changes exactly the supplied keys; a patch that changes nothing
   * leaves the state as it was.
   */
  lemma ReduceFilterSpec(state: State, patch: FilterPatch)
    ensures var f := Reduce(state, SetFilter(patch)).filter;
            (patch.search.None? ==> f.search == state.filter.search) &&
            (patch.search.Some? ==> f.search == patch.search.value) &&
            (patch.page.None? ==> f.page == state.filter.page) &&
            (patch.page.Some? ==> f.page == patch.page.value) &&
            (patch.limit.None? ==> f.limit == state.filter.limit) &&
            (patch.limit.Some? ==> f.limit == patch.limit.value)
    ensures Reduce(state, SetFilter(patch)) == state.(filter := MergeFilter(state.filter, patch))
    ensures MergeFilter(state.filter, patch) == state.filter ==> Reduce(state, SetFilter(patch)) == state
    ensures Reduce(state, SetFilter(FilterPatch(None, None, None))) == state
  {
  }

  /** Each action touches its own part of the state and nothing else. */
  lemma ReduceFrame(state: State, action: Action)
    ensures var r := Reduce(state, action);
            (!action.SetPagination? ==> r.totalUsers == state.totalUsers && r.totalPages == state.totalPages) &&
            (action.SetPagination? ==> r == state.(totalUsers := action.total, totalPages := action.totalPages)) &&
            (!(action.SetUsers? || action.AddUser? || action.UpdateUser? || action.DeleteUser?) ==>
               r.users == state.users) &&
            (!(action.SetLoading? || action.SetError?) ==> r.loading == state.loading) &&
            (!(action.OpenModal? || action.CloseModal?) ==> r.modal == state.modal) &&
            (!action.SetFilter? ==> r.filter == state.filter) &&
            (action.Other? ==> r == state)
  {
  }
}
