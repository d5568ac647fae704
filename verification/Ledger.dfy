/** The transaction ledger: posting, reversing and superseding, and the date each can change holdings from. */
module Ledger {
  import opened Sequences

  datatype TxKind = Buy | Sell | Split | OtherKind
  datatype TxStatus = Posted | Reversed | Superseded

  /** day is the local trade date; at ranks the trade instants; price doubles as a split's denominator. */
  datatype Tx = Tx(id: nat, holding: Option<nat>, kind: TxKind, status: TxStatus, day: int, at: int,
                   quantity: Option<real>, price: Option<real>, reverses: Option<nat>)

  predicate UniqueIds(txs: seq<Tx>) {
    forall i, j :: 0 <= i < j < |txs| ==> txs[i].id != txs[j].id
  }

  ghost predicate Fresh(id: nat, txs: seq<Tx>) {
    && (forall x :: x in txs ==> x.id != id)
    && (forall x :: x in txs ==> x.reverses != Some(id))
  }

  /** What a reversal points at is no longer posted. */
  ghost predicate ReversalsSettled(txs: seq<Tx>) {
    forall r, o :: r in txs && o in txs && r.reverses == Some(o.id) ==> o.status != Posted
  }

  ghost predicate Sound(txs: seq<Tx>) {
    UniqueIds(txs) && ReversalsSettled(txs)
  }

  /** The posted row with this id, if there is one. */
  function FindPosted(txs: seq<Tx>, id: nat): (r: Option<nat>)
    ensures r.Some? ==> r.value < |txs| && txs[r.value].id == id && txs[r.value].status == Posted
    ensures r.None? ==> forall x :: x in txs ==> !(x.id == id && x.status == Posted)
  {
    if txs == [] then None
    else if txs[0].id == id && txs[0].status == Posted then Some(0)
    else
      var r := FindPosted(txs[1..], id);
      if r.Some? then Some(r.value + 1) else None
  }

  datatype Mutation =
    | Post(tx: Tx)
    | Reverse(target: nat, newId: nat)
    | Supersede(target: nat, tx: Tx)

  ghost predicate Admissible(m: Mutation, txs: seq<Tx>) {
    match m
    case Post(tx) => Fresh(tx.id, txs) && tx.status == Posted && tx.reverses.None?
    case Reverse(_, id) => Fresh(id, txs)
    case Supersede(_, tx) => Fresh(tx.id, txs) && tx.status == Posted && tx.reverses.None?
  }

  /** The ledger after the mutation and the first day whose holdings it may have changed; nothing when refused. */
  function Mutate(m: Mutation, txs: seq<Tx>): Option<(seq<Tx>, int)> {
    match m
    case Post(tx) => Some((txs + [tx], tx.day))
    case Reverse(target, id) =>
      (match FindPosted(txs, target)
       case None => None
       case Some(k) =>
         var original := txs[k];
         Some((txs[k := original.(status := Reversed)] + [original.(id := id, reverses := Some(target))],
               original.day)))
    case Supersede(target, tx) =>
      (match FindPosted(txs, target)
       case None => None
       case Some(k) =>
         var original := txs[k];
         Some((txs[k := original.(status := Superseded)] + [tx],
               if original.day < tx.day then original.day else tx.day)))
  }

  /** Every mutation keeps ids unique and reversed rows out of the posted ones. */
  lemma MutateSound(m: Mutation, txs: seq<Tx>)
    requires Sound(txs) && Admissible(m, txs) && Mutate(m, txs).Some?
    ensures Sound(Mutate(m, txs).value.0)
  {
  }

  /** Replacing an element p rejects by another p rejects changes nothing p keeps. */
  lemma {:induction false} FilterUpdate<T(!new)>(p: T -> bool, s: seq<T>, k: nat, x: T)
    requires k < |s| && !p(s[k]) && !p(x)
    ensures Filter(p, s[k := x]) == Filter(p, s)
  {
    if k == 0 {
      assert s[0 := x][1..] == s[1..];
    } else {
      assert s[k := x][1..] == s[1..][k - 1 := x];
      FilterUpdate(p, s[1..], k - 1, x);
    }
  }

  /** The rows that count towards holding h at day d. */
  function Effective(h: nat, d: int): Tx -> bool {
    (tx: Tx) => tx.holding == Some(h) && tx.status == Posted && tx.reverses.None? && tx.day <= d
  }

  /** Before its first affected day a mutation changes no holding's effective rows, nor their order. */
  lemma MutateBefore(m: Mutation, txs: seq<Tx>, h: nat, d: int)
    requires Admissible(m, txs) && Mutate(m, txs).Some? && d < Mutate(m, txs).value.1
    ensures Filter(Effective(h, d), Mutate(m, txs).value.0) == Filter(Effective(h, d), txs)
  {
    var p := Effective(h, d);
    var after := Mutate(m, txs).value.0;
    match m {
      case Post(tx) =>
        FilterConcat(p, txs, [tx]);
      case Reverse(target, id) =>
        var k := FindPosted(txs, target).value;
        FilterConcat(p, txs[k := txs[k].(status := Reversed)], [after[|txs|]]);
        FilterUpdate(p, txs, k, txs[k].(status := Reversed));
      case Supersede(target, tx) =>
        var k := FindPosted(txs, target).value;
        FilterConcat(p, txs[k := txs[k].(status := Superseded)], [tx]);
        FilterUpdate(p, txs, k, txs[k].(status := Superseded));
    }
  }

  function LeavingOut(txs: seq<Tx>, k: nat): seq<Tx>
    requires k < |txs|
  {
    txs[..k] + txs[k + 1..]
  }

  lemma FilterWithout<T(!new)>(p: T -> bool, s: seq<T>, k: nat, x: T)
    requires k < |s| && !p(x)
    ensures Filter(p, s[k := x]) == Filter(p, s[..k] + s[k + 1..])
  {
    var tail := s[k + 1..];
    assert s[k := x] == s[..k] + ([x] + tail);
    FilterConcat(p, s[..k], [x] + tail);
    FilterConcat(p, [x], tail);
    FilterConcat(p, s[..k], tail);
  }

  /** A reversal undoes its transaction: what counts is what would count had it never been posted. */
  lemma ReverseCancels(txs: seq<Tx>, target: nat, newId: nat, h: nat, d: int)
    requires Fresh(newId, txs) && FindPosted(txs, target).Some?
    ensures Filter(Effective(h, d), Mutate(Reverse(target, newId), txs).value.0)
         == Filter(Effective(h, d), LeavingOut(txs, FindPosted(txs, target).value))
  {
    var p, k := Effective(h, d), FindPosted(txs, target).value;
    var reversed := txs[k].(status := Reversed);
    var after := Mutate(Reverse(target, newId), txs).value.0;
    assert after == txs[k := reversed] + [txs[k].(id := newId, reverses := Some(target))];
    FilterConcat(p, txs[k := reversed], [after[|txs|]]);
    FilterWithout(p, txs, k, reversed);
  }

  /** A posting adds its transaction, and that is all. */
  lemma PostAdds(txs: seq<Tx>, tx: Tx, h: nat, d: int)
    ensures Mutate(Post(tx), txs).Some?
    ensures Filter(Effective(h, d), Mutate(Post(tx), txs).value.0)
         == Filter(Effective(h, d), txs) + if Effective(h, d)(tx) then [tx] else []
  {
    FilterConcat(Effective(h, d), txs, [tx]);
    assert [tx][1..] == [];
  }

  /** It is refused exactly when there is no posted row to reverse or supersede. */
  lemma MutateRefusedIff(m: Mutation, txs: seq<Tx>)
    ensures Mutate(m, txs).None? <==>
      !m.Post? && forall x :: x in txs ==> !(x.id == m.target && x.status == Posted)
  {
    if !m.Post? && FindPosted(txs, m.target).Some? {
      assert txs[FindPosted(txs, m.target).value] in txs;
    }
  }

  /** The row a mutation posts or takes out first of all, if it belongs to a holding. */
  function Touched(m: Mutation, txs: seq<Tx>): Tx
    requires Mutate(m, txs).Some?
  {
    match m
    case Post(tx) => tx
    case Reverse(target, _) => txs[FindPosted(txs, target).value]
    case Supersede(target, tx) =>
      var original := txs[FindPosted(txs, target).value];
      if original.day < tx.day then original else tx
  }

  /** On the first day a mutation invalidates, the rows of its holding really are other ones. */
  lemma FirstDayIsChanged(m: Mutation, txs: seq<Tx>, h: nat)
    requires UniqueIds(txs) && Admissible(m, txs) && Mutate(m, txs).Some?
    requires Touched(m, txs).holding == Some(h) && Touched(m, txs).reverses.None?
    ensures Filter(Effective(h, Mutate(m, txs).value.1), Mutate(m, txs).value.0) != Filter(Effective(h, Mutate(m, txs).value.1), txs)
  {
    var from, after, x := Mutate(m, txs).value.1, Mutate(m, txs).value.0, Touched(m, txs);
    assert x in Filter(Effective(h, from), txs) <==> x in txs && Effective(h, from)(x);
    assert x in Filter(Effective(h, from), after) <==> x in after && Effective(h, from)(x);
  }

  /** A superseding transaction stands in the place of the one it replaces. */
  lemma SupersedeReplaces(txs: seq<Tx>, target: nat, tx: Tx, h: nat, d: int)
    requires FindPosted(txs, target).Some?
    ensures Filter(Effective(h, d), Mutate(Supersede(target, tx), txs).value.0)
         == Filter(Effective(h, d), LeavingOut(txs, FindPosted(txs, target).value) + [tx])
  {
    var p, k := Effective(h, d), FindPosted(txs, target).value;
    var superseded := txs[k].(status := Superseded);
    FilterConcat(p, txs[k := superseded], [tx]);
    FilterConcat(p, LeavingOut(txs, k), [tx]);
    FilterWithout(p, txs, k, superseded);
  }
}
