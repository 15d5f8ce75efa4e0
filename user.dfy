/**
 * The records of the registration service (`src/interfaces/User.ts`): a user
 * with an embedded address, the data a creation supplies, the partial data an
 * update supplies, how the service merges them, and the identifiers it hands out.
 */
module UserModel {
  import opened Wrappers
  import opened Strings

  datatype Address = Address(
    cep: string, street: string, number: string, complement: Option<string>,
    neighborhood: string, city: string, state: string, uf: string)

  datatype User = User(
    id: string, name: string, email: string, phone: string, cpf: string, birthDate: string,
    address: Address, createdAt: string, updatedAt: string)

  /** The address of `CreateUserData`: street, neighborhood, city, state and uf may be left out. */
  datatype NewAddress = NewAddress(
    cep: string, street: Option<string>, number: string, complement: Option<string>,
    neighborhood: Option<string>, city: Option<string>, state: Option<string>, uf: Option<string>)

  datatype CreateUserData = CreateUserData(
    name: string, email: string, phone: string, cpf: string, birthDate: string, address: NewAddress)

  /** The address part of an update: every sub-field may be left out. */
  datatype AddressPatch = AddressPatch(
    cep: Option<string>, street: Option<string>, number: Option<string>, complement: Option<string>,
    neighborhood: Option<string>, city: Option<string>, state: Option<string>, uf: Option<string>)

  /** `UpdateUserData`: the id of the record to change and any of the fields of a creation. */
  datatype UpdateUserData = UpdateUserData(
    id: string, name: Option<string>, email: Option<string>, phone: Option<string>, cpf: Option<string>,
    birthDate: Option<string>, address: Option<AddressPatch>)

  // ---------------------------------------------------------------- identifiers

  /** `user_${nextId}_${Date.now()}`. */
  function MakeId(counter: nat, now: nat): string {
    "user_" + NatToString(counter) + "_" + NatToString(now)
  }

  /** The longest run of digits at the start of `s`. */
  function LeadingDigits(s: string): (r: string)
    ensures AllDigits(r) && |r| <= |s|
  {
    if s != [] && IsDigit(s[0]) then [s[0]] + LeadingDigits(s[1..]) else []
  }

  /** The counter an identifier was made from: the number after `user_` (0 for any other string). */
  function IdCounter(id: string): nat {
    if StartsWith(id, "user_") then ParseDigits(LeadingDigits(id[5..])) else 0
  }

  lemma {:induction false} LeadingDigitsStop(d: string, rest: string)
    requires AllDigits(d) && (rest == [] || !IsDigit(rest[0]))
    ensures LeadingDigits(d + rest) == d
  {
    if d == [] {
      assert d + rest == rest;
    } else {
      assert (d + rest)[0] == d[0] && (d + rest)[1..] == d[1..] + rest;
      LeadingDigitsStop(d[1..], rest);
      assert [d[0]] + d[1..] == d;
    }
  }

  /** The counter can be read back from every identifier the service makes. */
  lemma IdCounterOfMakeId(counter: nat, now: nat)
    ensures IdCounter(MakeId(counter, now)) == counter
  {
    var id := MakeId(counter, now);
    var digits := NatToString(counter);
    var rest := "_" + NatToString(now);
    assert id == "user_" + (digits + rest);
    assert StartsWith(id, "user_");
    assert id[5..] == digits + rest;
    LeadingDigitsStop(digits, rest);
    ParseNatToString(counter);
  }

  /** Identifiers made from different counters differ, whatever the clock said. */
  lemma MakeIdInjective(c1: nat, t1: nat, c2: nat, t2: nat)
    requires c1 != c2
    ensures MakeId(c1, t1) != MakeId(c2, t2)
  {
    IdCounterOfMakeId(c1, t1);
    IdCounterOfMakeId(c2, t2);
  }

  // ---------------------------------------------------------------- creating and merging

  /**
   * The record `createUser` builds: missing address sub-fields become `""`;
   * the clock is read once for `createdAt` and once more for `updatedAt`.
   */
  function NewUser(data: CreateUserData, id: string, created: string, updated: string): User {
    var a := data.address;
    User(id, data.name, data.email, data.phone, data.cpf, data.birthDate,
         Address(a.cep, a.street.GetOr(""), a.number, a.complement, a.neighborhood.GetOr(""),
                 a.city.GetOr(""), a.state.GetOr(""), a.uf.GetOr("")),
         created, updated)
  }

  /** `{ ...address, ...patch }`: every sub-field the patch supplies replaces the old one. */
  function MergeAddress(old_: Address, patch: AddressPatch): Address {
    Address(patch.cep.GetOr(old_.cep), patch.street.GetOr(old_.street), patch.number.GetOr(old_.number),
            if patch.complement.Some? then patch.complement else old_.complement,
            patch.neighborhood.GetOr(old_.neighborhood), patch.city.GetOr(old_.city),
            patch.state.GetOr(old_.state), patch.uf.GetOr(old_.uf))
  }

  /**
   * The record `updateUser` writes back: `{ ...existing, ...data }` with the
   * address merged sub-field by sub-field when the update supplies one, and a
   * fresh `updatedAt`.
   */
  function Merge(existing: User, data: UpdateUserData, stamp: string): User {
    User(existing.id, data.name.GetOr(existing.name), data.email.GetOr(existing.email),
         data.phone.GetOr(existing.phone), data.cpf.GetOr(existing.cpf),
         data.birthDate.GetOr(existing.birthDate),
         match data.address
         case None => existing.address
         case Some(patch) => MergeAddress(existing.address, patch),
         existing.createdAt, stamp)
  }

  /**
   * What `createUser` promises of the record it builds: the given id and
   * timestamps, every supplied field as supplied, and `""` for each optional
   * address sub-field left out.
   */
  lemma NewUserSpec(data: CreateUserData, id: string, created: string, updated: string)
    ensures var u := NewUser(data, id, created, updated);
            u.id == id && u.createdAt == created && u.updatedAt == updated &&
            u.name == data.name && u.email == data.email && u.phone == data.phone &&
            u.cpf == data.cpf && u.birthDate == data.birthDate
    ensures var a, ua := data.address, NewUser(data, id, created, updated).address;
            ua.cep == a.cep && ua.number == a.number && ua.complement == a.complement &&
            (a.street.None? ==> ua.street == "") && (a.street.Some? ==> ua.street == a.street.value) &&
            (a.neighborhood.None? ==> ua.neighborhood == "") &&
            (a.neighborhood.Some? ==> ua.neighborhood == a.neighborhood.value) &&
            (a.city.None? ==> ua.city == "") && (a.city.Some? ==> ua.city == a.city.value) &&
            (a.state.None? ==> ua.state == "") && (a.state.Some? ==> ua.state == a.state.value) &&
            (a.uf.None? ==> ua.uf == "") && (a.uf.Some? ==> ua.uf == a.uf.value)
  {
  }

  /** The address merge takes every sub-field the patch supplies and keeps every other one. */
  lemma MergeAddressSpec(old_: Address, patch: AddressPatch)
    ensures var a := MergeAddress(old_, patch);
            (patch.cep.None? ==> a.cep == old_.cep) && (patch.cep.Some? ==> a.cep == patch.cep.value) &&
            (patch.street.None? ==> a.street == old_.street) &&
            (patch.street.Some? ==> a.street == patch.street.value) &&
            (patch.number.None? ==> a.number == old_.number) &&
            (patch.number.Some? ==> a.number == patch.number.value) &&
            (patch.complement.None? ==> a.complement == old_.complement) &&
            (patch.complement.Some? ==> a.complement == patch.complement) &&
            (patch.neighborhood.None? ==> a.neighborhood == old_.neighborhood) &&
            (patch.neighborhood.Some? ==> a.neighborhood == patch.neighborhood.value) &&
            (patch.city.None? ==> a.city == old_.city) && (patch.city.Some? ==> a.city == patch.city.value) &&
            (patch.state.None? ==> a.state == old_.state) &&
            (patch.state.Some? ==> a.state == patch.state.value) &&
            (patch.uf.None? ==> a.uf == old_.uf) && (patch.uf.Some? ==> a.uf == patch.uf.value)
  {
  }

  /**
   * The merge keeps id and creation time, takes every supplied field, keeps every
   * other one, keeps the address whole when none is supplied, merges it sub-field
   * by sub-field when one is, and refreshes `updatedAt`.
   */
  lemma MergeSpec(existing: User, data: UpdateUserData, stamp: string)
    ensures var u := Merge(existing, data, stamp);
            u.id == existing.id && u.createdAt == existing.createdAt && u.updatedAt == stamp &&
            (data.name.None? ==> u.name == existing.name) &&
            (data.name.Some? ==> u.name == data.name.value) &&
            (data.email.None? ==> u.email == existing.email) &&
            (data.email.Some? ==> u.email == data.email.value) &&
            (data.phone.None? ==> u.phone == existing.phone) &&
            (data.phone.Some? ==> u.phone == data.phone.value) &&
            (data.cpf.None? ==> u.cpf == existing.cpf) &&
            (data.cpf.Some? ==> u.cpf == data.cpf.value) &&
            (data.birthDate.None? ==> u.birthDate == existing.birthDate) &&
            (data.birthDate.Some? ==> u.birthDate == data.birthDate.value) &&
            (data.address.None? ==> u.address == existing.address) &&
            (data.address.Some? ==> u.address == MergeAddress(existing.address, data.address.value))
  {
  }

  /** An update that supplies only a new city changes the city and `updatedAt` and nothing else. */
  lemma MergeOnlyCity(existing: User, city: string, stamp: string)
    ensures var patch := AddressPatch(None, None, None, None, None, Some(city), None, None);
            var data := UpdateUserData(existing.id, None, None, None, None, None, Some(patch));
            Merge(existing, data, stamp) ==
              existing.(address := existing.address.(city := city), updatedAt := stamp)
  {
  }

  /** Applying the same update twice is the same as applying it once. */
  lemma MergeIdempotent(existing: User, data: UpdateUserData, stamp: string)
    ensures Merge(Merge(existing, data, stamp), data, stamp) == Merge(existing, data, stamp)
  {
  }
}
