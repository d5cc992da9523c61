/** `Orders`: a fixed user and an append-only list of phones (id and timestamps left out). */
module Orders {
  import opened Entities

  datatype Order = Order(user: User, phones: seq<Phone>)

  /** `new Orders(user)`: the given user, no phones yet. */
  function NewOrder(user: User): (o: Order)
    ensures o.user == user
    ensures |o.phones| == 0
  {
    Order(user, [])
  }

  /** `addPhone`: the phone goes to the end; the user and the earlier phones stay as they were. */
  function AddPhone(o: Order, p: Phone): (r: Order)
    ensures r.user == o.user
    ensures |r.phones| == |o.phones| + 1
    ensures r.phones[|o.phones|] == p
    ensures forall i :: 0 <= i < |o.phones| ==> r.phones[i] == o.phones[i]
  {
    o.(phones := o.phones + [p])
  }

  /** A sequence of `addPhone` calls, in order. */
  function AddPhones(o: Order, ps: seq<Phone>): Order
    decreases |ps|
  {
    if ps == [] then o else AddPhones(AddPhone(o, ps[0]), ps[1..])
  }

  /** Adding phones one by one appends them, in order, to the list. */
  lemma {:induction false} AddPhonesAppends(o: Order, ps: seq<Phone>)
    ensures AddPhones(o, ps) == Order(o.user, o.phones + ps)
    decreases |ps|
  {
    if ps != [] {
      AddPhonesAppends(AddPhone(o, ps[0]), ps[1..]);
      assert o.phones + [ps[0]] + ps[1..] == o.phones + ps;
    }
  }

  /** An order built from a new order by adding `ps` holds exactly `ps`, for the given user. */
  lemma BuiltOrderHoldsPhones(user: User, ps: seq<Phone>)
    ensures AddPhones(NewOrder(user), ps) == Order(user, ps)
  {
    AddPhonesAppends(NewOrder(user), ps);
  }
}
