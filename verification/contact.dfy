/** The contact value object: a validated email address plus an ordered bag of
    additional data, serialised flat with `email` first. */
module Contacts {
  import opened Wrappers
  import opened OrderedMap
  import opened Php
  import Email

  /** `email` is the stored address; `data` is the additional-data array. */
  datatype Contact = Contact(email: string, data: PhpArray)

  /** The exceptions a contact raises. */
  datatype ContactError = InvalidEmail(address: string) | MissingData(key: string)

  /** A call to a mutator: the contact's state afterwards and the exception it
      threw, if any. */
  datatype Step = Step(after: Contact, thrown: Option<ContactError>)

  /** The invariant every contact keeps: the address passed the check when it
      was last written, and the data is a proper PHP array. */
  predicate Valid(c: Contact) {
    Email.ValidEmail(c.email) && UniqueKeys(c.data)
  }

  /** The key of the serialised address. */
  const EmailKey: Key := StrKey("email")

  function GetEmail(c: Contact): string {
    c.email
  }

  /** `array_key_exists($key, $this->additionalData)`. */
  predicate HasData(c: Contact, key: string) {
    HasKey(c.data, KeyOf(key))
  }

  /** `getData`: the stored value, or null for a missing key. */
  function GetData(c: Contact, key: string): Value {
    Find(c.data, KeyOf(key)).GetOr(Null)
  }

  /** `new Contact($email, $additionalData)`. */
  function New(email: string, additionalData: PhpArray): (r: Result<Contact, ContactError>)
    ensures r.Success? <==> Email.ValidEmail(email)
    ensures r.Failure? ==> r.error == InvalidEmail(email)
    ensures r.Success? ==> GetEmail(r.value) == email && r.value.data == additionalData
    ensures r.Success? ==> forall k :: GetData(r.value, k) == Find(additionalData, KeyOf(k)).GetOr(Null)
    ensures r.Success? && UniqueKeys(additionalData) ==> Valid(r.value)
  {
    if !Email.ValidEmail(email) then Failure(InvalidEmail(email))
    else Success(Contact(email, additionalData))
  }

  /** `setEmail`: a rejected address throws and changes nothing; an accepted one
      replaces the address and nothing else. */
  function SetEmail(c: Contact, value: string): (r: Step)
    ensures r.thrown.None? <==> Email.ValidEmail(value)
    ensures r.thrown.Some? ==> r.after == c && r.thrown.value == InvalidEmail(value)
    ensures r.thrown.None? ==> GetEmail(r.after) == value && r.after.data == c.data
    ensures Valid(c) ==> Valid(r.after)
  {
    if !Email.ValidEmail(value) then Step(c, Some(InvalidEmail(value)))
    else Step(c.(email := value), None)
  }

  /** Distinct strings never share an array entry. */
  lemma DistinctKeys(key: string)
    ensures forall k :: k != key ==> KeyOf(k) != KeyOf(key)
  {
    forall k | k != key ensures KeyOf(k) != KeyOf(key) {
      KeyOfInjective(k, key);
    }
  }

  /** `setData`: the key reads back the value; every other key keeps its value
      and its place; a present key keeps its position and a new one goes last. */
  function SetData(c: Contact, key: string, value: Value): (r: Contact)
    ensures HasData(r, key) && GetData(r, key) == value
    ensures forall k :: k != key ==> HasData(r, k) == HasData(c, k) && GetData(r, k) == GetData(c, k)
    ensures GetEmail(r) == GetEmail(c)
    ensures HasData(c, key) ==> Keys(r.data) == Keys(c.data)
    ensures !HasData(c, key) ==> Keys(r.data) == Keys(c.data) + [KeyOf(key)]
    ensures Valid(c) ==> Valid(r)
  {
    DistinctKeys(key);
    c.(data := Put(c.data, KeyOf(key), value))
  }

  /** `removeData`: a missing key throws and changes nothing; a present key is
      removed and every other entry stays, in order. */
  function RemoveData(c: Contact, key: string): (r: Step)
    ensures r.thrown.Some? <==> !HasData(c, key)
    ensures r.thrown.Some? ==> r.after == c && r.thrown.value == MissingData(key)
    ensures r.thrown.None? ==>
      var i := IndexOf(c.data, KeyOf(key));
      r.after.data == c.data[..i] + c.data[i + 1..]
    ensures forall k :: k != key ==> HasData(r.after, k) == HasData(c, k) && GetData(r.after, k) == GetData(c, k)
    ensures GetEmail(r.after) == GetEmail(c)
    ensures Valid(c) ==> Valid(r.after) && !HasData(r.after, key) && GetData(r.after, key) == Null
  {
    if !HasData(c, key) then Step(c, Some(MissingData(key)))
    else
      var d := Delete(c.data, KeyOf(key));
      DistinctKeys(key);
      assert forall k :: k != key ==> Find(d, KeyOf(k)) == Find(c.data, KeyOf(k));
      Step(c.(data := d), None)
  }

  /** `jsonSerialize`: `email` first, then the data keys in insertion order; a
      data key named `email` overrides the address but stays first. */
  function Serialize(c: Contact): (r: PhpArray)
    requires UniqueKeys(c.data)
    ensures Keys(r) == [EmailKey] + Fresh(Keys(c.data), [EmailKey])
    ensures Find(r, EmailKey) == Some(Find(c.data, EmailKey).GetOr(Str(c.email)))
    ensures forall k :: k != EmailKey ==> Find(r, k) == Find(c.data, k)
    ensures UniqueKeys(r)
  {
    var start := [(EmailKey, Str(c.email))];
    var r := PutAll(start, c.data);
    PutAllKeys(start, c.data);
    assert Keys(start) == [EmailKey];
    forall k ensures Find(r, k) == if HasKey(c.data, k) then Find(c.data, k) else Find(start, k) {
      PutAllFind(start, c.data, k);
    }
    FindAt(start, 0);
    PutAllUnique(start, c.data);
    r
  }

  /** Removing a key right after setting it never throws, and leaves what
      removing it from the original contact leaves: for a key that was not
      there, the original contact itself. */
  lemma RemoveAfterSet(c: Contact, key: string, value: Value)
    ensures RemoveData(SetData(c, key, value), key).thrown.None?
    ensures HasData(c, key) ==> RemoveData(SetData(c, key, value), key) == RemoveData(c, key)
    ensures !HasData(c, key) ==> RemoveData(SetData(c, key, value), key) == Step(c, None)
  {
    DeleteAfterPut(c.data, KeyOf(key), value);
  }

  /** Of two writes to the same key the later wins. */
  lemma LastSetWins(c: Contact, key: string, v: Value, w: Value)
    ensures SetData(SetData(c, key, v), key, w) == SetData(c, key, w)
  {
    PutTwice(c.data, KeyOf(key), v, w);
  }

  /** The serialisation of `a@b.com` with one data entry `name => X`. */
  lemma SerializeExample()
    ensures Serialize(Contact("a@b.com", [(StrKey("name"), Str("X"))]))
         == [(EmailKey, Str("a@b.com")), (StrKey("name"), Str("X"))]
  {
    var c := Contact("a@b.com", [(StrKey("name"), Str("X"))]);
    var start := [(EmailKey, Str("a@b.com"))];
    assert StrKey("name") != EmailKey;
    assert !HasKey(start, StrKey("name"));
    assert Put(start, StrKey("name"), Str("X")) == start + [(StrKey("name"), Str("X"))];
    assert PutAll(start, c.data) == PutAll(start + [(StrKey("name"), Str("X"))], []);
  }
}
