/** The `User` and `Address` records of routes/routes.go and the shallow
    merge `copyNonEmptyFields` performs on them. Go's reflection walks the
    five top-level fields of `User` in declaration order and copies a
    source field over the destination field when it is not the zero value;
    here that walk is over an explicit field list. `json.Number` fields
    (`Age`, `Pincode`) are strings underneath, so they are strings here. */
module Records {

  datatype Address = Address(city: string, state: string, country: string, pincode: string)

  datatype User = User(name: string, age: string, contact: string, company: string, address: Address)

  /** The zero value of `Address`. */
  const EmptyAddress := Address("", "", "", "")

  /** The zero value of `User`. */
  const EmptyUser := User("", "", "", "", EmptyAddress)

  /** A field of `User` as reflection sees it: a string or a whole `Address`. */
  datatype FieldValue = Text(text: string) | Place(place: Address)

  /** `User` has five fields: `Name`, `Age`, `Contact`, `Company`, `Address`. */
  const FieldCount: nat := 5

  /** `reflect.Value.Field(i)`. */
  function Field(u: User, i: nat): FieldValue
    requires i < FieldCount
  {
    match i
    case 0 => Text(u.name)
    case 1 => Text(u.age)
    case 2 => Text(u.contact)
    case 3 => Text(u.company)
    case _ => Place(u.address)
  }

  /** `reflect.Value.IsZero`: an empty string, or an address whose four
      fields are all empty. */
  predicate IsZero(f: FieldValue) {
    match f
    case Text(t) => t == ""
    case Place(a) => a == EmptyAddress
  }

  /** A value of the right type for field `i`. */
  predicate Fits(i: nat, f: FieldValue) {
    i < FieldCount && (i == FieldCount - 1 <==> f.Place?)
  }

  /** `reflect.Value.Set` on field `i`. */
  function SetField(u: User, i: nat, f: FieldValue): (r: User)
    requires Fits(i, f)
    ensures Field(r, i) == f
    ensures forall k :: 0 <= k < FieldCount && k != i ==> Field(r, k) == Field(u, k)
  {
    match i
    case 0 => u.(name := f.text)
    case 1 => u.(age := f.text)
    case 2 => u.(contact := f.text)
    case 3 => u.(company := f.text)
    case _ => u.(address := f.place)
  }

  /** The merge of `update` over `current`, written out field by field: a
      non-empty string wins, and a non-empty address replaces the old one as
      a whole. */
  function Merge(update: User, current: User): User {
    User(
      if update.name != "" then update.name else current.name,
      if update.age != "" then update.age else current.age,
      if update.contact != "" then update.contact else current.contact,
      if update.company != "" then update.company else current.company,
      if update.address != EmptyAddress then update.address else current.address)
  }

  /** Two users with the same fields are the same user. */
  lemma FieldsDetermineUser(a: User, b: User)
    requires forall i :: 0 <= i < FieldCount ==> Field(a, i) == Field(b, i)
    ensures a == b
  {
    assert Field(a, 0) == Field(b, 0) && Field(a, 1) == Field(b, 1) && Field(a, 2) == Field(b, 2);
    assert Field(a, 3) == Field(b, 3) && Field(a, 4) == Field(b, 4);
  }

  /** Each field of the merge is the update's field when that is not zero,
      and the current field otherwise. */
  lemma MergeByField(update: User, current: User)
    ensures forall i :: 0 <= i < FieldCount ==>
      Field(Merge(update, current), i) == if IsZero(Field(update, i)) then Field(current, i) else Field(update, i)
  {
  }

  /** The merge is shallow: a non-empty address in the update replaces the
      current one whole, empty subfields included, and an empty one keeps
      the current address. */
  lemma MergeIsShallow(update: User, current: User)
    ensures update.address != EmptyAddress ==> Merge(update, current).address == update.address
    ensures update.address == EmptyAddress ==> Merge(update, current).address == current.address
  {
  }

  /** An all-zero update changes nothing. */
  lemma MergeEmptyUpdate(current: User)
    ensures Merge(EmptyUser, current) == current
  {
  }

  /** Applying the same update twice is applying it once. */
  lemma MergeIdempotent(update: User, current: User)
    ensures Merge(update, Merge(update, current)) == Merge(update, current)
  {
  }

  /** An update with no zero field replaces the record entirely. */
  lemma MergeFullUpdate(update: User, current: User)
    requires forall i :: 0 <= i < FieldCount ==> !IsZero(Field(update, i))
    ensures Merge(update, current) == update
  {
    assert !IsZero(Field(update, 0)) && !IsZero(Field(update, 1)) && !IsZero(Field(update, 2));
    assert !IsZero(Field(update, 3)) && !IsZero(Field(update, 4));
  }

  /** `copyNonEmptyFields(src, dest)`: walk the fields and copy every
      non-zero source field onto the destination. */
  method CopyNonEmptyFields(src: User, dest: User) returns (merged: User)
    ensures merged == Merge(src, dest)
  {
    merged := dest;
    for i := 0 to FieldCount
      invariant forall k :: 0 <= k < i ==>
        Field(merged, k) == if IsZero(Field(src, k)) then Field(dest, k) else Field(src, k)
      invariant forall k :: i <= k < FieldCount ==> Field(merged, k) == Field(dest, k)
    {
      var f := Field(src, i);
      if !IsZero(f) {
        merged := SetField(merged, i, f);
      }
    }
    MergeByField(src, dest);
    FieldsDetermineUser(merged, Merge(src, dest));
  }
}
