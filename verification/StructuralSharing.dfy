/** Structural sharing of view frames (frontend/src/adapter/frame.ts): which values and which
    object identities come out of `share`, `shareByKey` and `adaptSnapshot`.

    Arrays and objects are heap references compared by identity; a `Tree` is the value they show.
    A zero of either sign shows as 0, which is what `===` sees of it. */
module StructuralSharing {
  import opened Common

  datatype Number = NaN | NegativeZero | Finite(value: real)

  datatype Scalar = Undefined | Null | Bool(bit: bool) | Num(number: Number) | Str(text: string)

  datatype Ref = Prim(scalar: Scalar) | Arr(list: JsArray) | Obj(record: JsObject)

  datatype Tree = Leaf(scalar: Scalar) | List(items: seq<Tree>) | Record(fields: map<string, Tree>)

  class JsArray {
    const items: seq<Ref>

    constructor (items: seq<Ref>)
      ensures this.items == items
    {
      this.items := items;
    }
  }

  class JsObject {
    const fields: map<string, Ref>

    constructor (fields: map<string, Ref>)
      ensures this.fields == fields
    {
      this.fields := fields;
    }
  }

  const ABSENT := Prim(Undefined)

  // ----- Values and identity -----

  function Unsigned(s: Scalar): Scalar {
    if s == Num(NegativeZero) then Num(Finite(0.0)) else s
  }

  /** `a === b`. (`Object.is(a, b)` is `a == b`.) */
  predicate Identical(a: Ref, b: Ref) {
    if a.Prim? && b.Prim? then a.scalar != Num(NaN) && Unsigned(a.scalar) == Unsigned(b.scalar)
    else a == b
  }

  /** Reading the plain data under `r` gives `t`, whatever the signs of its zeros. */
  ghost predicate Shows(r: Ref, t: Tree)
    decreases t
  {
    match t
    case Leaf(s) => r.Prim? && s == Unsigned(r.scalar)
    case List(items) =>
      r.Arr? && |r.list.items| == |items| && forall i :: 0 <= i < |items| ==> Shows(r.list.items[i], items[i])
    case Record(fields) =>
      r.Obj? && r.record.fields.Keys == fields.Keys && forall k :: k in fields ==> Shows(r.record.fields[k], fields[k])
  }

  /** Reading it gives exactly `t`. */
  ghost predicate Reads(r: Ref, t: Tree)
    decreases t
  {
    match t
    case Leaf(s) => r == Prim(s)
    case List(items) =>
      r.Arr? && |r.list.items| == |items| && forall i :: 0 <= i < |items| ==> Reads(r.list.items[i], items[i])
    case Record(fields) =>
      r.Obj? && r.record.fields.Keys == fields.Keys && forall k :: k in fields ==> Reads(r.record.fields[k], fields[k])
  }

  ghost predicate NaNFree(t: Tree) {
    match t
    case Leaf(s) => s != Num(NaN)
    case List(items) => forall i :: 0 <= i < |items| ==> NaNFree(items[i])
    case Record(fields) => forall k :: k in fields ==> NaNFree(fields[k])
  }

  function Elem(items: seq<Ref>, i: nat): Ref {
    if i < |items| then items[i] else ABSENT
  }

  function Field(fields: map<string, Ref>, k: string): Ref {
    if k in fields then fields[k] else ABSENT
  }

  // ----- What share promises -----

  /** When `prev` may stand for `next`: they are one object, or equal by `===` leaf by leaf. */
  ghost predicate Matches(next: Ref, prev: Ref, t: Tree)
    requires Shows(next, t)
    decreases t
  {
    match t
    case Leaf(_) => Identical(next, prev)
    case List(items) =>
      prev.Arr? && (next == prev || (|prev.list.items| == |items|
        && forall i :: 0 <= i < |items| ==> Matches(next.list.items[i], prev.list.items[i], items[i])))
    case Record(fields) =>
      prev.Obj? && (next == prev || (prev.record.fields.Keys == fields.Keys
        && forall k :: k in fields ==> Matches(next.record.fields[k], prev.record.fields[k], fields[k])))
  }

  /** `r` is `next` with every array and object that has a match in its place in `prev` replaced by
      it; what had to be rebuilt on the way is one of `made`. */
  ghost predicate Shares(r: Ref, next: Ref, prev: Ref, t: Tree, made: set<object>)
    requires Shows(next, t)
    decreases t
  {
    match t
    case Leaf(_) => r == next
    case List(items) =>
      if Matches(next, prev, t) then r == prev
      else if !prev.Arr? then r == next
      else
        r.Arr? && r.list in made && |r.list.items| == |items|
        && forall i :: 0 <= i < |items| ==>
             Shares(r.list.items[i], next.list.items[i], Elem(prev.list.items, i), items[i], made)
    case Record(fields) =>
      if Matches(next, prev, t) then r == prev
      else if !prev.Obj? then r == next
      else
        r.Obj? && r.record in made && r.record.fields.Keys == fields.Keys
        && forall k :: k in fields ==>
             Shares(r.record.fields[k], next.record.fields[k], Field(prev.record.fields, k), fields[k], made)
  }

  // ----- Consequences -----

  lemma {:induction false} MatchShowsValue(next: Ref, prev: Ref, t: Tree)
    requires Shows(next, t) && Matches(next, prev, t)
    ensures Shows(prev, t)
    decreases t
  {
    if next != prev {
      match t
      case Leaf(_) =>
      case List(items) =>
        forall i | 0 <= i < |items| ensures Shows(prev.list.items[i], items[i]) {
          MatchShowsValue(next.list.items[i], prev.list.items[i], items[i]);
        }
      case Record(fields) =>
        forall k | k in fields ensures Shows(prev.record.fields[k], fields[k]) {
          MatchShowsValue(next.record.fields[k], prev.record.fields[k], fields[k]);
        }
    }
  }

  /** Sharing keeps the value: the result and `next` differ in nothing but signs of zeros. */
  lemma {:induction false} SharingKeepsValue(r: Ref, next: Ref, prev: Ref, t: Tree, made: set<object>)
    requires Shows(next, t) && Shares(r, next, prev, t, made)
    ensures Shows(r, t)
    decreases t
  {
    if Matches(next, prev, t) && !t.Leaf? {
      MatchShowsValue(next, prev, t);
    } else if r != next {
      match t
      case Leaf(_) =>
      case List(items) =>
        forall i | 0 <= i < |items| ensures Shows(r.list.items[i], items[i]) {
          SharingKeepsValue(r.list.items[i], next.list.items[i], Elem(prev.list.items, i), items[i], made);
        }
      case Record(fields) =>
        forall k | k in fields ensures Shows(r.record.fields[k], fields[k]) {
          SharingKeepsValue(r.record.fields[k], next.record.fields[k], Field(prev.record.fields, k), fields[k], made);
        }
    }
  }

  lemma {:induction false} OneValue(r: Ref, t: Tree, u: Tree)
    requires Shows(r, t) && Shows(r, u)
    ensures t == u
    decreases t
  {
    match t
    case Leaf(_) =>
    case List(items) =>
      forall i | 0 <= i < |items| ensures items[i] == u.items[i] {
        OneValue(r.list.items[i], items[i], u.items[i]);
      }
    case Record(fields) =>
      forall k | k in fields ensures k in u.fields && fields[k] == u.fields[k] {
        OneValue(r.record.fields[k], fields[k], u.fields[k]);
      }
      assert fields == u.fields;
  }

  lemma {:induction false} EqualValuesMatch(next: Ref, prev: Ref, t: Tree)
    requires Shows(next, t) && Shows(prev, t) && NaNFree(t)
    ensures Matches(next, prev, t)
    decreases t
  {
    match t
    case Leaf(_) =>
    case List(items) =>
      forall i | 0 <= i < |items| ensures Matches(next.list.items[i], prev.list.items[i], items[i]) {
        EqualValuesMatch(next.list.items[i], prev.list.items[i], items[i]);
      }
    case Record(fields) =>
      forall k | k in fields ensures Matches(next.record.fields[k], prev.record.fields[k], fields[k]) {
        EqualValuesMatch(next.record.fields[k], prev.record.fields[k], fields[k]);
      }
  }

  /** Every array and object under `r` is one of `objects`. */
  ghost predicate Within(r: Ref, t: Tree, objects: set<object>)
    requires Shows(r, t)
    decreases t
  {
    match t
    case Leaf(_) => true
    case List(items) =>
      r.list in objects && forall i :: 0 <= i < |items| ==> Within(r.list.items[i], items[i], objects)
    case Record(fields) =>
      r.record in objects && forall k :: k in fields ==> Within(r.record.fields[k], fields[k], objects)
  }

  /** No array or object under `r` is one of `objects`: so it is for a freshly built frame. */
  ghost predicate Outside(r: Ref, t: Tree, objects: set<object>)
    requires Shows(r, t)
    decreases t
  {
    match t
    case Leaf(_) => true
    case List(items) =>
      r.list !in objects && forall i :: 0 <= i < |items| ==> Outside(r.list.items[i], items[i], objects)
    case Record(fields) =>
      r.record !in objects && forall k :: k in fields ==> Outside(r.record.fields[k], fields[k], objects)
  }

  /** Between a fresh value and an old one a match means equal values without any NaN. */
  lemma {:induction false} FreshMatch(next: Ref, prev: Ref, t: Tree, before: Tree, olds: set<object>)
    requires Shows(next, t) && Shows(prev, before) && Outside(next, t, olds) && Within(prev, before, olds)
    ensures Matches(next, prev, t) <==> t == before && NaNFree(t)
    decreases t
  {
    if Matches(next, prev, t) {
      MatchShowsValue(next, prev, t);
      OneValue(prev, t, before);
      match t
      case Leaf(_) =>
      case List(items) =>
        forall i | 0 <= i < |items| ensures NaNFree(items[i]) {
          FreshMatch(next.list.items[i], prev.list.items[i], items[i], items[i], olds);
        }
      case Record(fields) =>
        forall k | k in fields ensures NaNFree(fields[k]) {
          FreshMatch(next.record.fields[k], prev.record.fields[k], fields[k], fields[k], olds);
        }
    }
    if t == before && NaNFree(t) {
      EqualValuesMatch(next, prev, t);
    }
  }

  /** Whatever sharing takes over from an old value holds no NaN. */
  ghost predicate TakesNoNaN(r: Ref, t: Tree, olds: set<object>)
    requires Shows(r, t)
    decreases t
  {
    match t
    case Leaf(_) => true
    case List(items) =>
      && (r.list in olds ==> NaNFree(t))
      && forall i :: 0 <= i < |items| ==> TakesNoNaN(r.list.items[i], items[i], olds)
    case Record(fields) =>
      && (r.record in olds ==> NaNFree(t))
      && forall k :: k in fields ==> TakesNoNaN(r.record.fields[k], fields[k], olds)
  }

  lemma {:induction false} NaNFreeTakes(r: Ref, t: Tree, olds: set<object>)
    requires Shows(r, t) && NaNFree(t)
    ensures TakesNoNaN(r, t, olds)
    decreases t
  {
    match t
    case Leaf(_) =>
    case List(items) =>
      forall i | 0 <= i < |items| ensures TakesNoNaN(r.list.items[i], items[i], olds) {
        NaNFreeTakes(r.list.items[i], items[i], olds);
      }
    case Record(fields) =>
      forall k | k in fields ensures TakesNoNaN(r.record.fields[k], fields[k], olds) {
        NaNFreeTakes(r.record.fields[k], fields[k], olds);
      }
  }

  lemma {:induction false} OutsideTakes(r: Ref, t: Tree, olds: set<object>)
    requires Shows(r, t) && Outside(r, t, olds)
    ensures TakesNoNaN(r, t, olds)
    decreases t
  {
    match t
    case Leaf(_) =>
    case List(items) =>
      forall i | 0 <= i < |items| ensures TakesNoNaN(r.list.items[i], items[i], olds) {
        OutsideTakes(r.list.items[i], items[i], olds);
      }
    case Record(fields) =>
      forall k | k in fields ensures TakesNoNaN(r.record.fields[k], fields[k], olds) {
        OutsideTakes(r.record.fields[k], fields[k], olds);
      }
  }

  /** Sharing a fresh value with an old one takes over nothing that holds a NaN, at any depth. */
  lemma {:induction false} SharingTakesNoNaN(
    r: Ref, next: Ref, prev: Ref, t: Tree, before: Tree, made: set<object>, olds: set<object>)
    requires Shows(next, t) && Shows(prev, before) && Outside(next, t, olds) && Within(prev, before, olds)
    requires Shares(r, next, prev, t, made) && made !! olds
    ensures Shows(r, t) && TakesNoNaN(r, t, olds)
    decreases t
  {
    SharingKeepsValue(r, next, prev, t, made);
    FreshMatch(next, prev, t, before, olds);
    if t.Leaf? {
    } else if Matches(next, prev, t) {
      NaNFreeTakes(r, t, olds);
    } else if r == next {
      OutsideTakes(r, t, olds);
    } else {
      match t
      case List(items) =>
        forall i | 0 <= i < |items| ensures TakesNoNaN(r.list.items[i], items[i], olds) {
          SharingTakesNoNaN(r.list.items[i], next.list.items[i], Elem(prev.list.items, i), items[i],
            if i < |before.items| then before.items[i] else Leaf(Undefined), made, olds);
        }
      case Record(fields) =>
        forall k | k in fields ensures TakesNoNaN(r.record.fields[k], fields[k], olds) {
          SharingTakesNoNaN(r.record.fields[k], next.record.fields[k], Field(prev.record.fields, k), fields[k],
            if k in before.fields then before.fields[k] else Leaf(Undefined), made, olds);
        }
    }
  }

  lemma {:induction false} MadeMore(r: Ref, next: Ref, prev: Ref, t: Tree, made: set<object>, more: set<object>)
    requires Shows(next, t) && Shares(r, next, prev, t, made) && made <= more
    ensures Shares(r, next, prev, t, more)
    decreases t
  {
    if ((t.List? && prev.Arr?) || (t.Record? && prev.Obj?)) && !Matches(next, prev, t) {
      match t
      case List(items) =>
        forall i | 0 <= i < |items|
          ensures Shares(r.list.items[i], next.list.items[i], Elem(prev.list.items, i), items[i], more)
        {
          MadeMore(r.list.items[i], next.list.items[i], Elem(prev.list.items, i), items[i], made, more);
        }
      case Record(fields) =>
        forall k | k in fields
          ensures Shares(r.record.fields[k], next.record.fields[k], Field(prev.record.fields, k), fields[k], more)
        {
          MadeMore(r.record.fields[k], next.record.fields[k], Field(prev.record.fields, k), fields[k], made, more);
        }
    }
  }

  // ----- Signs of zeros -----

  /** Leaf by leaf the same scalar, the signs of zeros included. */
  ghost predicate ReadAlike(a: Ref, b: Ref, t: Tree)
    decreases t
  {
    match t
    case Leaf(_) => a == b
    case List(items) =>
      && a.Arr? && b.Arr? && |a.list.items| == |b.list.items| == |items|
      && forall i :: 0 <= i < |items| ==> ReadAlike(a.list.items[i], b.list.items[i], items[i])
    case Record(fields) =>
      && a.Obj? && b.Obj? && a.record.fields.Keys == b.record.fields.Keys == fields.Keys
      && forall k :: k in fields ==> ReadAlike(a.record.fields[k], b.record.fields[k], fields[k])
  }

  /** Every array and object of `prev` that is going to stand for its counterpart reads like it. */
  ghost predicate SignsAgree(next: Ref, prev: Ref, t: Tree)
    requires Shows(next, t)
    decreases t
  {
    match t
    case Leaf(_) => true
    case List(items) =>
      if Matches(next, prev, t) then ReadAlike(next, prev, t)
      else prev.Arr? ==>
        forall i :: 0 <= i < |items| ==> SignsAgree(next.list.items[i], Elem(prev.list.items, i), items[i])
    case Record(fields) =>
      if Matches(next, prev, t) then ReadAlike(next, prev, t)
      else prev.Obj? ==>
        forall k :: k in fields ==> SignsAgree(next.record.fields[k], Field(prev.record.fields, k), fields[k])
  }

  lemma {:induction false} ReadsLikeItself(r: Ref, t: Tree)
    requires Shows(r, t)
    ensures ReadAlike(r, r, t)
    decreases t
  {
    match t
    case Leaf(_) =>
    case List(items) =>
      forall i | 0 <= i < |items| ensures ReadAlike(r.list.items[i], r.list.items[i], items[i]) {
        ReadsLikeItself(r.list.items[i], items[i]);
      }
    case Record(fields) =>
      forall k | k in fields ensures ReadAlike(r.record.fields[k], r.record.fields[k], fields[k]) {
        ReadsLikeItself(r.record.fields[k], fields[k]);
      }
  }

  /** The result reads exactly like `next` if and only if the signs agree wherever `prev` matches. */
  lemma {:induction false} SignsKeptExactly(r: Ref, next: Ref, prev: Ref, t: Tree, made: set<object>)
    requires Shows(next, t) && Shares(r, next, prev, t, made)
    ensures ReadAlike(next, r, t) <==> SignsAgree(next, prev, t)
    decreases t
  {
    if r == next {
      ReadsLikeItself(next, t);
    }
    if !t.Leaf? && !Matches(next, prev, t) && (if t.List? then prev.Arr? else prev.Obj?) {
      match t
      case List(items) =>
        forall i | 0 <= i < |items|
          ensures ReadAlike(next.list.items[i], r.list.items[i], items[i])
            <==> SignsAgree(next.list.items[i], Elem(prev.list.items, i), items[i])
        {
          SignsKeptExactly(r.list.items[i], next.list.items[i], Elem(prev.list.items, i), items[i], made);
        }
      case Record(fields) =>
        forall k | k in fields
          ensures ReadAlike(next.record.fields[k], r.record.fields[k], fields[k])
            <==> SignsAgree(next.record.fields[k], Field(prev.record.fields, k), fields[k])
        {
          SignsKeptExactly(r.record.fields[k], next.record.fields[k], Field(prev.record.fields, k), fields[k], made);
        }
    }
  }

  lemma {:induction false} ReadersAlike(a: Ref, b: Ref, t: Tree)
    requires Reads(a, t)
    ensures Reads(b, t) <==> ReadAlike(a, b, t)
    decreases t
  {
    match t
    case Leaf(_) =>
    case List(items) =>
      if b.Arr? && |b.list.items| == |items| {
        forall i | 0 <= i < |items|
          ensures Reads(b.list.items[i], items[i]) <==> ReadAlike(a.list.items[i], b.list.items[i], items[i])
        {
          ReadersAlike(a.list.items[i], b.list.items[i], items[i]);
        }
      }
    case Record(fields) =>
      if b.Obj? && b.record.fields.Keys == fields.Keys {
        forall k | k in fields
          ensures Reads(b.record.fields[k], fields[k]) <==> ReadAlike(a.record.fields[k], b.record.fields[k], fields[k])
        {
          ReadersAlike(a.record.fields[k], b.record.fields[k], fields[k]);
        }
      }
  }

  lemma {:induction false} UnsignedAgree(next: Ref, prev: Ref, t: Tree, before: Tree)
    requires Shows(next, t) && Shows(prev, before) && Reads(next, t) && Reads(prev, before)
    ensures SignsAgree(next, prev, t)
    decreases t
  {
    if !t.Leaf? && Matches(next, prev, t) {
      MatchShowsValue(next, prev, t);
      OneValue(prev, t, before);
      ReadersAlike(next, prev, t);
    } else if t.List? && prev.Arr? {
      forall i | 0 <= i < |t.items| ensures SignsAgree(next.list.items[i], Elem(prev.list.items, i), t.items[i]) {
        UnsignedAgree(next.list.items[i], Elem(prev.list.items, i), t.items[i],
          if i < |before.items| then before.items[i] else Leaf(Undefined));
      }
    } else if t.Record? && prev.Obj? {
      forall k | k in t.fields
        ensures SignsAgree(next.record.fields[k], Field(prev.record.fields, k), t.fields[k])
      {
        UnsignedAgree(next.record.fields[k], Field(prev.record.fields, k), t.fields[k],
          if k in before.fields then before.fields[k] else Leaf(Undefined));
      }
    }
  }

  /** In particular values without negative zeros stay exactly what they were. */
  lemma SharingKeepsSigns(r: Ref, next: Ref, prev: Ref, t: Tree, before: Tree, made: set<object>)
    requires Shows(next, t) && Shares(r, next, prev, t, made) && Reads(next, t) && Reads(prev, before)
      && Shows(prev, before)
    ensures Reads(r, t)
  {
    UnsignedAgree(next, prev, t, before);
    SignsKeptExactly(r, next, prev, t, made);
    ReadersAlike(next, r, t);
  }

  // ----- share -----

  /** `share`: `prev` itself exactly on a match, otherwise `next` with its matching parts replaced. */
  method Share(next: Ref, prev: Ref, ghost t: Tree) returns (r: Ref, ghost made: set<object>)
    requires Shows(next, t)
    ensures fresh(made) && Shares(r, next, prev, t, made)
    ensures Identical(r, prev) <==> Matches(next, prev, t)
    decreases t, 3
  {
    hide Shows, Shares;
    made := {};
    if next == prev {
      r := next;
      SharedSelf(next, t);
    } else if next.Arr? && prev.Arr? {
      r, made := ShareItems(next, prev, t);
    } else if next.Obj? && prev.Obj? {
      r, made := ShareFields(next, prev, t);
    } else {
      r := next;
      NothingShared(next, prev, t);
    }
  }

  lemma SharedSelf(r: Ref, t: Tree)
    requires Shows(r, t)
    ensures Shares(r, r, r, t, {}) && (Identical(r, r) <==> Matches(r, r, t))
  {
  }

  lemma NothingShared(next: Ref, prev: Ref, t: Tree)
    requires Shows(next, t) && !(next.Arr? && prev.Arr?) && !(next.Obj? && prev.Obj?)
    ensures Shares(next, next, prev, t, {}) && (Identical(next, prev) <==> Matches(next, prev, t))
  {
  }

  // ----- share on arrays -----

  method ShareItems(next: Ref, prev: Ref, ghost t: Tree) returns (r: Ref, ghost made: set<object>)
    requires Shows(next, t) && next.Arr? && prev.Arr? && next != prev
    ensures fresh(made) && Shares(r, next, prev, t, made)
    ensures Identical(r, prev) <==> Matches(next, prev, t)
    decreases t, 2
  {
    hide Shows, Shares, Matches, Identical, ItemsShared;
    ItemValues(next, t);
    var items, was := next.list.items, prev.list.items;
    var same := |items| == |was|;
    var out: seq<Ref> := [];
    made := {};
    NoItems(items, was, t.items, same);
    for i := 0 to |items|
      invariant |out| == i && fresh(made) && ItemsShared(out, items, was, t.items, same, made)
    {
      var counterpart := if i < |was| then was[i] else ABSENT;
      var reused;
      ghost var more;
      reused, more := Share(items[i], counterpart, t.items[i]);
      var kept := Identical(reused, counterpart);
      OneMoreItem(out, items, was, t.items, same, made, reused, kept, more);
      if !kept {
        same := false;
      }
      out := out + [reused];
      made := made + more;
    }
    if same {
      r := prev;
      AllItemsKept(out, next, prev, t, made);
    } else {
      var copy := new JsArray(out);
      r := Arr(copy);
      made := made + {copy};
      ItemsRebuilt(out, next, prev, t, made - {copy}, copy);
    }
  }

  /** What the loop over the items has established when `out` holds the items visited. */
  ghost predicate ItemsShared(
    out: seq<Ref>, items: seq<Ref>, was: seq<Ref>, t: seq<Tree>, same: bool, made: set<object>)
  {
    && |out| <= |t| == |items|
    && (forall j :: 0 <= j < |items| ==> Shows(items[j], t[j]))
    && (forall j :: 0 <= j < |out| ==> Shares(out[j], items[j], Elem(was, j), t[j], made))
    && (same <==> |t| == |was| && forall j :: 0 <= j < |out| ==> Matches(items[j], Elem(was, j), t[j]))
  }

  lemma ItemValues(r: Ref, t: Tree)
    requires r.Arr? && Shows(r, t)
    ensures t.List? && |r.list.items| == |t.items|
    ensures forall i :: 0 <= i < |t.items| ==> Shows(r.list.items[i], t.items[i])
  {
  }

  lemma NoItems(items: seq<Ref>, was: seq<Ref>, t: seq<Tree>, same: bool)
    requires |items| == |t| && forall j :: 0 <= j < |items| ==> Shows(items[j], t[j])
    requires same <==> |items| == |was|
    ensures ItemsShared([], items, was, t, same, {})
  {
    hide Shows, Shares, Matches;
  }

  lemma OneMoreItem(out: seq<Ref>, items: seq<Ref>, was: seq<Ref>, t: seq<Tree>, same: bool, made: set<object>,
                    reused: Ref, kept: bool, more: set<object>)
    requires ItemsShared(out, items, was, t, same, made) && |out| < |t|
    requires Shares(reused, items[|out|], Elem(was, |out|), t[|out|], more)
    requires kept <==> Matches(items[|out|], Elem(was, |out|), t[|out|])
    ensures ItemsShared(out + [reused], items, was, t, same && kept, made + more)
  {
    hide Shows, Shares, Matches, Elem;
    var next := out + [reused];
    forall j | 0 <= j < |next| ensures Shares(next[j], items[j], Elem(was, j), t[j], made + more) {
      MadeMore(next[j], items[j], Elem(was, j), t[j], if j < |out| then made else more, made + more);
    }
  }

  lemma AllItemsKept(out: seq<Ref>, next: Ref, prev: Ref, t: Tree, made: set<object>)
    requires Shows(next, t) && next.Arr? && prev.Arr? && t.List? && |out| == |t.items|
    requires ItemsShared(out, next.list.items, prev.list.items, t.items, true, made)
    ensures Shares(prev, next, prev, t, made) && Matches(next, prev, t) && Identical(prev, prev)
  {
  }

  lemma ItemsRebuilt(out: seq<Ref>, next: Ref, prev: Ref, t: Tree, made: set<object>, copy: JsArray)
    requires Shows(next, t) && next.Arr? && prev.Arr? && next != prev && t.List? && |out| == |t.items|
    requires ItemsShared(out, next.list.items, prev.list.items, t.items, false, made)
    requires copy.items == out && prev != Arr(copy)
    ensures Shares(Arr(copy), next, prev, t, made + {copy}) && !Matches(next, prev, t) && !Identical(Arr(copy), prev)
  {
    forall j | 0 <= j < |out|
      ensures Shares(out[j], next.list.items[j], Elem(prev.list.items, j), t.items[j], made + {copy})
    {
      MadeMore(out[j], next.list.items[j], Elem(prev.list.items, j), t.items[j], made, made + {copy});
    }
  }

  // ----- share on objects -----

  method ShareFields(next: Ref, prev: Ref, ghost t: Tree) returns (r: Ref, ghost made: set<object>)
    requires Shows(next, t) && next.Obj? && prev.Obj? && next != prev
    ensures fresh(made) && Shares(r, next, prev, t, made)
    ensures Identical(r, prev) <==> Matches(next, prev, t)
    decreases t, 2
  {
    hide Shows, Shares, Matches, Identical, FieldsShared;
    FieldValues(next, t);
    assert FieldsOf(next.record.fields, t);
    var out, same;
    out, same, made := ShareEachField(next.record.fields, prev.record.fields, t);
    if same {
      r := prev;
      AllFieldsKept(out, next, prev, t, made);
    } else {
      var copy := NewObject(out);
      r := Obj(copy);
      FieldsRebuilt(out, next, prev, t, made, copy);
      made := made + {copy};
    }
  }

  method ShareEachField(fields: map<string, Ref>, was: map<string, Ref>, ghost t: Tree)
    returns (out: map<string, Ref>, same: bool, ghost made: set<object>)
    requires FieldsOf(fields, t)
    ensures fresh(made) && FieldsShared(out, {}, fields, was, t, same, made)
    decreases t, 1
  {
    hide FieldsOf, Shows, Shares, Matches, FieldsShared, Put, Field;
    same := |fields| == |was|;
    out, made := map[], {};
    var todo := fields.Keys;
    NoFields(fields, was, t, same);
    while todo != {}
      invariant fresh(made) && FieldsShared(out, todo, fields, was, t, same, made)
      decreases |todo|
    {
      var key :| key in todo;
      FieldIn(out, todo, fields, was, t, same, made, key);
      var reused, kept;
      ghost var more;
      reused, kept, more := ShareField(fields, was, key, t);
      OneMoreField(out, todo, fields, was, t, same, made, key, reused, kept, more);
      out := Put(out, key, reused);
      same := same && kept;
      made := made + more;
      todo := todo - {key};
    }
  }

  /** `fields` are the fields of an object that shows `t`. */
  ghost predicate FieldsOf(fields: map<string, Ref>, t: Tree) {
    && t.Record? && fields.Keys == t.fields.Keys && |fields| == |t.fields|
    && forall k :: k in fields ==> Shows(fields[k], t.fields[k])
  }

  lemma FieldIn(out: map<string, Ref>, todo: set<string>, fields: map<string, Ref>, was: map<string, Ref>, t: Tree,
                same: bool, made: set<object>, key: string)
    requires FieldsShared(out, todo, fields, was, t, same, made) && key in todo
    ensures FieldsOf(fields, t) && key in fields
  {
    hide Shows, Shares, Matches;
  }

  method NewObject(out: map<string, Ref>) returns (copy: JsObject)
    ensures fresh(copy) && copy.fields == out
  {
    copy := new JsObject(out);
  }

  /** One turn of the loop over the fields: the shared value and whether it is the previous one. */
  method ShareField(fields: map<string, Ref>, was: map<string, Ref>, key: string, ghost t: Tree)
    returns (reused: Ref, kept: bool, ghost more: set<object>)
    requires FieldsOf(fields, t) && key in fields
    ensures fresh(more) && Shares(reused, fields[key], Field(was, key), t.fields[key], more)
    ensures kept <==> key in was && Matches(fields[key], Field(was, key), t.fields[key])
    decreases t, 0
  {
    hide Shares, Matches;
    var had := key in was;
    var counterpart := if had then was[key] else ABSENT;
    reused, more := Share(fields[key], counterpart, t.fields[key]);
    kept := had && Identical(reused, counterpart);
  }

  function Put(out: map<string, Ref>, key: string, value: Ref): (r: map<string, Ref>)
    ensures r.Keys == out.Keys + {key}
  {
    out[key := value]
  }

  /** What the loop over the fields has established while the keys of `todo` are still to come. */
  ghost predicate FieldsShared(
    out: map<string, Ref>, todo: set<string>, fields: map<string, Ref>, was: map<string, Ref>, t: Tree, same: bool,
                  made: set<object>)
  {
    && FieldsOf(fields, t) && todo <= fields.Keys && out.Keys == fields.Keys - todo
    && (forall k :: k in out ==> Shares(out[k], fields[k], Field(was, k), t.fields[k], made))
    && (same <==>
          |fields| == |was| && forall k :: k in out ==> k in was && Matches(fields[k], Field(was, k), t.fields[k]))
  }

  lemma FieldValues(r: Ref, t: Tree)
    requires r.Obj? && Shows(r, t)
    ensures t.Record? && r.record.fields.Keys == t.fields.Keys && |r.record.fields| == |t.fields|
    ensures forall k :: k in t.fields ==> Shows(r.record.fields[k], t.fields[k])
  {
    assert |r.record.fields.Keys| == |t.fields.Keys|;
  }

  lemma NoFields(fields: map<string, Ref>, was: map<string, Ref>, t: Tree, same: bool)
    requires FieldsOf(fields, t) && (same <==> |fields| == |was|)
    ensures FieldsShared(map[], fields.Keys, fields, was, t, same, {})
  {
    hide Shows, Shares, Matches;
  }

  lemma OneMoreField(
    out: map<string, Ref>, todo: set<string>, fields: map<string, Ref>, was: map<string, Ref>, t: Tree, same: bool,
    made: set<object>, key: string, reused: Ref, kept: bool, more: set<object>)
    requires FieldsShared(out, todo, fields, was, t, same, made) && key in todo
    requires Shares(reused, fields[key], Field(was, key), t.fields[key], more)
    requires kept <==> key in was && Matches(fields[key], Field(was, key), t.fields[key])
    ensures FieldsShared(Put(out, key, reused), todo - {key}, fields, was, t, same && kept, made + more)
  {
    hide Shows, Shares, Matches, Field, FieldsOf;
    FieldsStillShared(out, fields, was, t, made, key, reused, more);
    assert Put(out, key, reused).Keys == fields.Keys - (todo - {key});
  }

  lemma FieldsStillShared(
    out: map<string, Ref>, fields: map<string, Ref>, was: map<string, Ref>, t: Tree, made: set<object>,
    key: string, reused: Ref, more: set<object>)
    requires FieldsOf(fields, t) && out.Keys <= fields.Keys && key in fields
    requires forall k :: k in out ==> Shares(out[k], fields[k], Field(was, k), t.fields[k], made)
    requires Shares(reused, fields[key], Field(was, key), t.fields[key], more)
    ensures forall k :: k in Put(out, key, reused) ==>
      Shares(Put(out, key, reused)[k], fields[k], Field(was, k), t.fields[k], made + more)
  {
    hide Shows, Shares, Field;
    var next := Put(out, key, reused);
    forall k | k in next ensures Shares(next[k], fields[k], Field(was, k), t.fields[k], made + more) {
      MadeMore(next[k], fields[k], Field(was, k), t.fields[k], if k == key then more else made, made + more);
    }
  }

  lemma AllFieldsKept(out: map<string, Ref>, next: Ref, prev: Ref, t: Tree, made: set<object>)
    requires Shows(next, t) && next.Obj? && prev.Obj?
    requires FieldsShared(out, {}, next.record.fields, prev.record.fields, t, true, made)
    ensures Shares(prev, next, prev, t, made) && Matches(next, prev, t) && Identical(prev, prev)
  {
    SameKeys(next.record.fields, prev.record.fields);
  }

  lemma FieldsRebuilt(out: map<string, Ref>, next: Ref, prev: Ref, t: Tree, made: set<object>, copy: JsObject)
    requires Shows(next, t) && next.Obj? && prev.Obj? && next != prev
    requires FieldsShared(out, {}, next.record.fields, prev.record.fields, t, false, made)
    requires copy.fields == out && prev != Obj(copy)
    ensures Shares(Obj(copy), next, prev, t, made + {copy}) && !Matches(next, prev, t) && !Identical(Obj(copy), prev)
  {
    hide Shows;
    forall k | k in out
      ensures Shares(out[k], next.record.fields[k], Field(prev.record.fields, k), t.fields[k], made + {copy})
    {
      MadeMore(out[k], next.record.fields[k], Field(prev.record.fields, k), t.fields[k], made, made + {copy});
    }
    SameSize(next.record.fields, prev.record.fields);
  }

  lemma SameSize<V>(a: map<string, V>, b: map<string, V>)
    ensures a.Keys == b.Keys ==> |a| == |b|
  {
    assert |a.Keys| == |a| && |b.Keys| == |b|;
  }

  lemma SameKeys<V>(a: map<string, V>, b: map<string, V>)
    requires |a| == |b| && a.Keys <= b.Keys
    ensures a.Keys == b.Keys
  {
    SubsetOfEqualSize(a.Keys, b.Keys);
  }

  lemma {:induction false} SubsetOfEqualSize(a: set<string>, b: set<string>)
    requires a <= b && |a| == |b|
    ensures a == b
  {
    if a != {} {
      var x :| x in a;
      SubsetOfEqualSize(a - {x}, b - {x});
      assert a == (a - {x}) + {x} && b == (b - {x}) + {x};
    } else {
      assert b == {};
    }
  }

  // ----- shareByKey -----

  /** The item's key: `agent.id` or `entry.seq`. A `Map` does not tell the two zeros apart. */
  function KeyOf(item: Ref, name: string): Scalar {
    if item.Obj? && name in item.record.fields && item.record.fields[name].Prim?
    then Unsigned(item.record.fields[name].scalar)
    else Undefined
  }

  lemma OneKey(a: Ref, b: Ref, t: Tree, name: string)
    requires Shows(a, t) && Shows(b, t)
    ensures KeyOf(a, name) == KeyOf(b, name)
  {
  }

  /** The `Map` filled in order: the last item of a key wins. */
  function ByKey(items: seq<Ref>, name: string): map<Scalar, Ref> {
    if items == [] then map[]
    else
      var last := items[|items| - 1];
      ByKey(items[..|items| - 1], name)[KeyOf(last, name) := last]
  }

  /** The previous item an item is shared with: the last one of its key. */
  function Counterpart(was: seq<Ref>, name: string, item: Ref): Ref {
    var byKey := ByKey(was, name);
    if KeyOf(item, name) in byKey then byKey[KeyOf(item, name)] else ABSENT
  }

  /** It is the last item of that key, if there is one. */
  lemma {:induction false} CounterpartIsLast(was: seq<Ref>, name: string, item: Ref) returns (j: int)
    ensures KeyOf(item, name) in ByKey(was, name) <==> 0 <= j < |was|
    ensures 0 <= j < |was| ==> Counterpart(was, name, item) == was[j] && KeyOf(was[j], name) == KeyOf(item, name)
    ensures forall m :: 0 <= m < |was| && m > j ==> KeyOf(was[m], name) != KeyOf(item, name)
    ensures j < |was| && (j < 0 ==> j == -1)
  {
    j := -1;
    if was != [] {
      var n := |was| - 1;
      if KeyOf(was[n], name) == KeyOf(item, name) {
        j := n;
      } else {
        j := CounterpartIsLast(was[..n], name, item);
        assert forall m :: 0 <= m < n ==> was[..n][m] == was[m];
      }
    }
  }

  /** Every item is the object kept under its key: always so when no key occurs twice. */
  ghost predicate Steady(items: seq<Ref>, name: string) {
    forall j :: 0 <= j < |items| ==> Counterpart(items, name, items[j]) == items[j]
  }

  lemma UniqueKeysAreSteady(items: seq<Ref>, name: string)
    requires forall i, j :: 0 <= i < j < |items| ==> KeyOf(items[i], name) != KeyOf(items[j], name)
    ensures Steady(items, name)
  {
    forall i | 0 <= i < |items| ensures Counterpart(items, name, items[i]) == items[i] {
      var j := CounterpartIsLast(items, name, items[i]);
    }
  }

  /** Wherever an item sits now, it is shared with the last previous item of its key. */
  ghost predicate SharesByKey(
    out: seq<Ref>, items: seq<Ref>, was: seq<Ref>, name: string, t: seq<Tree>, made: set<object>)
  {
    && |out| <= |items| == |t|
    && (forall i :: 0 <= i < |items| ==> Shows(items[i], t[i]))
    && forall i :: 0 <= i < |out| ==> Shares(out[i], items[i], Counterpart(was, name, items[i]), t[i], made)
  }

  /** The previous list kept as a whole: primitives in it are only `===` to the shared ones. */
  ghost predicate KeptByKey(items: seq<Ref>, was: seq<Ref>, name: string, t: seq<Tree>, made: set<object>) {
    && |was| == |items| == |t|
    && (forall i :: 0 <= i < |items| ==> Shows(items[i], t[i]))
    && forall i :: 0 <= i < |was| ==> KeptItem(was[i], items[i], Counterpart(was, name, items[i]), t[i], made)
  }

  ghost predicate KeptItem(was: Ref, item: Ref, prev: Ref, t: Tree, made: set<object>)
    requires Shows(item, t)
  {
    if t.Leaf? then Identical(item, was) else Shares(was, item, prev, t, made)
  }

  ghost predicate AllRecords(t: seq<Tree>) {
    forall i :: 0 <= i < |t| ==> t[i].Record?
  }

  predicate AllObjects(items: seq<Ref>) {
    forall i :: 0 <= i < |items| ==> items[i].Obj?
  }

  /** Every item matches the previous one in its place, and that is the one kept under its key. */
  ghost predicate ListKept(items: seq<Ref>, was: seq<Ref>, name: string, t: seq<Tree>) {
    && |items| == |t| == |was|
    && forall i :: 0 <= i < |items| ==> Shows(items[i], t[i]) && ItemKept(items[i], was, name, i, t[i])
  }

  ghost predicate ItemKept(item: Ref, was: seq<Ref>, name: string, i: nat, t: Tree)
    requires Shows(item, t)
  {
    i < |was| && Counterpart(was, name, item) == was[i] && Matches(item, was[i], t)
  }

  /** `shareByKey`, on lists of objects the previous list itself exactly when it is kept. */
  method ShareByKey(next: JsArray, prev: JsArray, name: string, ghost t: seq<Tree>)
    returns (r: JsArray, ghost made: set<object>)
    requires Shows(Arr(next), List(t))
    ensures fresh(made) && (r == prev || r in made)
    ensures |r.items| == |t|
    ensures r != prev || AllRecords(t) ==> SharesByKey(r.items, next.items, prev.items, name, t, made)
    ensures r == prev ==> KeptByKey(next.items, prev.items, name, t, made)
    ensures AllObjects(next.items) && AllObjects(prev.items) ==>
      (r == prev <==> ListKept(next.items, prev.items, name, t))
  {
    hide Shows, SharesByKey, KeptByKey, AllRecords, InPlace, AllObjects, Identical, ItemKept;
    var was := prev.items;
    var byKey := FillByKey(was, name);
    ItemValues(Arr(next), List(t));
    var same := |next.items| == |was|;
    var out: seq<Ref> := [];
    made := {};
    NoneKeyed(next.items, was, name, t, same);
    for i := 0 to |next.items|
      invariant |out| == i && fresh(made)
      invariant SharesByKey(out, next.items, was, name, t, made) && InPlace(out, next.items, was, name, t, same)
    {
      var reused;
      ghost var more;
      reused, more := ShareKeyed(next.items[i], byKey, name, was, t[i]);
      var kept := i < |was| && Identical(reused, was[i]);
      KeyedStep(out, next.items, was, name, t, made, reused, more);
      InPlaceStep(out, next.items, was, name, t, same, reused, kept);
      out := out + [reused];
      same := same && kept;
      made := made + more;
    }
    KeyedDone(out, next.items, was, name, t, same, made);
    if same {
      r := prev;
      KeptRecords(next.items, was, name, t, made);
    } else {
      r := new JsArray(out);
      ghost var before := made;
      made := made + {r};
      KeyedMore(out, next.items, was, name, t, before, made);
    }
  }

  /** One item shared with its counterpart. Among objects the result is in place exactly when kept. */
  method ShareKeyed(item: Ref, byKey: map<Scalar, Ref>, name: string, ghost was: seq<Ref>, ghost value: Tree)
    returns (reused: Ref, ghost more: set<object>)
    requires byKey == ByKey(was, name) && Shows(item, value)
    ensures fresh(more) && Shares(reused, item, Counterpart(was, name, item), value, more)
    ensures item.Obj? && AllObjects(was) ==>
      forall i :: 0 <= i < |was| ==> (Identical(reused, was[i]) <==> ItemKept(item, was, name, i, value))
  {
    hide Shows, Shares, Matches, ByKey, KeyOf;
    var key := KeyOf(item, name);
    var counterpart := if key in byKey then byKey[key] else ABSENT;
    reused, more := Share(item, counterpart, value);
    if item.Obj? && AllObjects(was) {
      KeptInPlace(item, was, name, value, reused, more);
    }
  }

  lemma KeptInPlace(item: Ref, was: seq<Ref>, name: string, value: Tree, reused: Ref, more: set<object>)
    requires Shows(item, value) && item.Obj? && AllObjects(was)
    requires Shares(reused, item, Counterpart(was, name, item), value, more)
    requires Identical(reused, Counterpart(was, name, item)) <==> Matches(item, Counterpart(was, name, item), value)
    requires forall i :: 0 <= i < |was| ==> was[i].record !in more
    ensures forall i :: 0 <= i < |was| ==> (Identical(reused, was[i]) <==> ItemKept(item, was, name, i, value))
  {
    hide KeyOf, ByKey;
    var last := CounterpartIsLast(was, name, item);
    assert value.Record?;
    if last < 0 {
      assert Counterpart(was, name, item) == ABSENT;
      assert forall i :: 0 <= i < |was| ==> KeyOf(was[i], name) != KeyOf(item, name);
    } else {
      assert Counterpart(was, name, item) == was[last] && was[last].Obj?;
    }
  }

  method FillByKey(items: seq<Ref>, name: string) returns (byKey: map<Scalar, Ref>)
    ensures byKey == ByKey(items, name)
  {
    byKey := map[];
    for i := 0 to |items|
      invariant byKey == ByKey(items[..i], name)
    {
      assert items[..i + 1][..i] == items[..i];
      byKey := byKey[KeyOf(items[i], name) := items[i]];
    }
    assert items[..|items|] == items;
  }

  /** What `same` stands for in the loop over the items. */
  ghost predicate InPlace(out: seq<Ref>, items: seq<Ref>, was: seq<Ref>, name: string, t: seq<Tree>, same: bool) {
    && |out| <= |items| == |t|
    && (forall i :: 0 <= i < |items| ==> Shows(items[i], t[i]))
    && (same ==> |items| == |was| && forall i :: 0 <= i < |out| ==> Identical(out[i], was[i]))
    && (AllObjects(items) && AllObjects(was) ==>
          (same <==> |items| == |was| && forall i :: 0 <= i < |out| ==> ItemKept(items[i], was, name, i, t[i])))
  }

  lemma NoneKeyed(items: seq<Ref>, was: seq<Ref>, name: string, t: seq<Tree>, same: bool)
    requires |items| == |t| && forall i :: 0 <= i < |items| ==> Shows(items[i], t[i])
    requires same <==> |items| == |was|
    ensures SharesByKey([], items, was, name, t, {}) && InPlace([], items, was, name, t, same)
  {
    hide Shows, AllObjects, ItemKept, Shares;
  }

  lemma KeyedStep(out: seq<Ref>, items: seq<Ref>, was: seq<Ref>, name: string, t: seq<Tree>, made: set<object>,
                  reused: Ref, more: set<object>)
    requires SharesByKey(out, items, was, name, t, made) && |out| < |t|
    requires Shares(reused, items[|out|], Counterpart(was, name, items[|out|]), t[|out|], more)
    ensures SharesByKey(out + [reused], items, was, name, t, made + more)
  {
    hide Shows, Shares, Counterpart;
    KeyedMore(out, items, was, name, t, made, made + more);
    MadeMore(reused, items[|out|], Counterpart(was, name, items[|out|]), t[|out|], more, made + more);
  }

  lemma KeyedMore(out: seq<Ref>, items: seq<Ref>, was: seq<Ref>, name: string, t: seq<Tree>, made: set<object>,
                  more: set<object>)
    requires SharesByKey(out, items, was, name, t, made) && made <= more
    ensures SharesByKey(out, items, was, name, t, more)
  {
    hide Shows, Shares, Counterpart;
    forall i | 0 <= i < |out| ensures Shares(out[i], items[i], Counterpart(was, name, items[i]), t[i], more) {
      MadeMore(out[i], items[i], Counterpart(was, name, items[i]), t[i], made, more);
    }
  }

  lemma InPlaceStep(out: seq<Ref>, items: seq<Ref>, was: seq<Ref>, name: string, t: seq<Tree>, same: bool,
                    reused: Ref, kept: bool)
    requires InPlace(out, items, was, name, t, same) && |out| < |t|
    requires kept <==> |out| < |was| && Identical(reused, was[|out|])
    requires items[|out|].Obj? && AllObjects(was) ==>
      forall i :: 0 <= i < |was| ==> (Identical(reused, was[i]) <==> ItemKept(items[|out|], was, name, i, t[|out|]))
    ensures InPlace(out + [reused], items, was, name, t, same && kept)
  {
    hide Shows, Identical, ItemKept;
  }

  lemma KeyedDone(out: seq<Ref>, items: seq<Ref>, was: seq<Ref>, name: string, t: seq<Tree>, same: bool,
                  made: set<object>)
    requires |out| == |items| && SharesByKey(out, items, was, name, t, made) && InPlace(out, items, was, name, t, same)
    ensures same ==> KeptByKey(items, was, name, t, made)
    ensures AllObjects(items) && AllObjects(was) ==> (same <==> ListKept(items, was, name, t))
  {
    hide Shows, ItemKept, Counterpart, Matches, KeptItem;
    if same {
      forall i | 0 <= i < |was| ensures KeptItem(was[i], items[i], Counterpart(was, name, items[i]), t[i], made) {
        KeptItemShares(out[i], was[i], items[i], Counterpart(was, name, items[i]), t[i], made);
      }
    }
  }

  lemma KeptItemShares(out: Ref, was: Ref, item: Ref, prev: Ref, t: Tree, made: set<object>)
    requires Shows(item, t) && Shares(out, item, prev, t, made) && Identical(out, was)
    ensures KeptItem(was, item, prev, t, made)
  {
  }

  /** On records nothing is left open. */
  lemma KeptRecords(items: seq<Ref>, was: seq<Ref>, name: string, t: seq<Tree>, made: set<object>)
    requires KeptByKey(items, was, name, t, made)
    ensures |was| == |t| && (AllRecords(t) ==> SharesByKey(was, items, was, name, t, made))
  {
    hide Shows, Shares, Counterpart;
  }

  // ----- adaptSnapshot -----

  const AGENTS := "agents"
  const RATIONALES := "rationales"

  ghost predicate IsFrame(t: Tree) {
    && t.Record? && AGENTS in t.fields && RATIONALES in t.fields
    && t.fields[AGENTS].List? && AllRecords(t.fields[AGENTS].items)
    && t.fields[RATIONALES].List? && AllRecords(t.fields[RATIONALES].items)
  }

  function ItemsAt(o: JsObject, k: string): seq<Ref> {
    if k in o.fields && o.fields[k].Arr? then o.fields[k].list.items else []
  }

  predicate Keyed(k: string) {
    k == AGENTS || k == RATIONALES
  }

  /** The frame shares agents and rationales by key. Its other fields are all the previous ones when
      every one of them matches, and otherwise each is shared with the previous one of its name. */
  ghost predicate FrameShares(r: JsObject, built: JsObject, prev: JsObject, t: Tree, made: set<object>)
    requires IsFrame(t) && Shows(Obj(built), t)
  {
    && r.fields.Keys == t.fields.Keys
    && r.fields[AGENTS].Arr? && |ItemsAt(r, AGENTS)| == |t.fields[AGENTS].items|
    && r.fields[RATIONALES].Arr? && |ItemsAt(r, RATIONALES)| == |t.fields[RATIONALES].items|
    && SharesByKey(ItemsAt(r, AGENTS), ItemsAt(built, AGENTS), ItemsAt(prev, AGENTS), "id", t.fields[AGENTS].items,
      made)
    && SharesByKey(ItemsAt(r, RATIONALES), ItemsAt(built, RATIONALES), ItemsAt(prev, RATIONALES), "seq",
                   t.fields[RATIONALES].items, made)
    && RestShares(r, built, prev, t, made)
  }

  ghost predicate RestKept(built: JsObject, prev: JsObject, t: Tree)
    requires IsFrame(t) && Shows(Obj(built), t)
  {
    && prev.fields.Keys == t.fields.Keys
    && forall k :: k in t.fields && !Keyed(k) ==> Matches(built.fields[k], Field(prev.fields, k), t.fields[k])
  }

  /** Nothing has changed: both lists are kept and every other field matches. */
  ghost predicate FrameKept(built: JsObject, prev: JsObject, t: Tree)
    requires IsFrame(t) && Shows(Obj(built), t)
  {
    && ListKept(ItemsAt(built, AGENTS), ItemsAt(prev, AGENTS), "id", t.fields[AGENTS].items)
    && ListKept(ItemsAt(built, RATIONALES), ItemsAt(prev, RATIONALES), "seq", t.fields[RATIONALES].items)
    && RestKept(built, prev, t)
  }

  /** `adaptSnapshot` after `buildFrame`. The previous frame is what an earlier call returned, so it
      shows some frame `before`. */
  method AdaptSnapshot(built: JsObject, prev: Option<JsObject>, ghost t: Tree, ghost before: Tree)
    returns (r: JsObject, ghost made: set<object>)
    requires IsFrame(t) && Shows(Obj(built), t)
    requires prev.Some? ==> IsFrame(before) && Shows(Obj(prev.value), before)
    ensures fresh(made) && Shows(Obj(r), t)
    ensures prev.None? ==> r == built
    ensures prev.Some? ==> FrameShares(r, built, prev.value, t, made)
    ensures prev.Some? ==> (r == prev.value <==> FrameKept(built, prev.value, t))
    ensures prev.Some? ==> r == prev.value || r in made
  {
    made := {};
    if prev.None? {
      return built, made;
    }
    r, made := AdaptOnto(built, prev.value, t, before);
    FrameShowsValue(r, built, prev.value, t, made);
  }

  method AdaptOnto(built: JsObject, prev: JsObject, ghost t: Tree, ghost before: Tree)
    returns (r: JsObject, ghost made: set<object>)
    requires IsFrame(t) && Shows(Obj(built), t)
    requires IsFrame(before) && Shows(Obj(prev), before)
    ensures fresh(made) && FrameShares(r, built, prev, t, made)
    ensures r == prev <==> FrameKept(built, prev, t)
    ensures r == prev || r in made
  {
    hide Shows, SharesByKey, KeptByKey, AllRecords, ListKept, RestKept, RestShares, FrameShares, IsFrame, AllObjects,
      WithLists;
    FrameLists(built, t);
    FrameLists(prev, before);
    var oldAgents, oldRationales := prev.fields[AGENTS].list, prev.fields[RATIONALES].list;
    var agents, rationales, rest;
    ghost var madeA, madeR, madeS;
    agents, madeA := ShareByKey(built.fields[AGENTS].list, oldAgents, "id", t.fields[AGENTS].items);
    rationales, madeR := ShareByKey(built.fields[RATIONALES].list, oldRationales, "seq", t.fields[RATIONALES].items);
    rest, madeS := ShareRest(built, prev, t, before);
    made := madeA + madeR + madeS;
    if rest == Obj(prev) && agents == oldAgents && rationales == oldRationales {
      r := prev;
    } else {
      r := NewObject(WithLists(rest.record.fields, Arr(agents), Arr(rationales)));
      made := made + {r};
    }
    FrameAssembled(r, rest, agents, rationales, built, prev, t, madeA, madeR, madeS, made);
  }

  /** Every field but the keyed lists, which stand in as the previous ones. */
  method ShareRest(built: JsObject, prev: JsObject, ghost t: Tree, ghost before: Tree)
    returns (rest: Ref, ghost made: set<object>)
    requires IsFrame(t) && Shows(Obj(built), t)
    requires IsFrame(before) && Shows(Obj(prev), before)
    ensures fresh(made) && rest.Obj? && RestShares(rest.record, built, prev, t, made)
    ensures rest.record.fields.Keys == t.fields.Keys
    ensures rest == Obj(prev) <==> RestKept(built, prev, t)
  {
    hide Shows, Shares, Matches, RestKept, IsFrame, WithLists, SwapTree, Identical;
    FrameLists(prev, before);
    var swapped := NewObject(WithLists(built.fields, prev.fields[AGENTS], prev.fields[RATIONALES]));
    SwappedShows(built, prev, swapped, t, before);
    rest, made := Share(Obj(swapped), Obj(prev), SwapTree(t, before));
    RestFields(rest, swapped, built, prev, t, before, made);
  }

  /** `{ ...fields, agents, rationales }`. */
  function WithLists<V>(fields: map<string, V>, agents: V, rationales: V): (r: map<string, V>)
    ensures r.Keys == fields.Keys + {AGENTS, RATIONALES}
    ensures r[AGENTS] == agents && r[RATIONALES] == rationales
    ensures forall k :: k in fields && !Keyed(k) ==> r[k] == fields[k]
  {
    fields[AGENTS := agents][RATIONALES := rationales]
  }

  ghost function SwapTree(t: Tree, before: Tree): (s: Tree)
    requires IsFrame(t) && IsFrame(before)
    ensures s.Record? && s.fields.Keys == t.fields.Keys
    ensures s.fields[AGENTS] == before.fields[AGENTS] && s.fields[RATIONALES] == before.fields[RATIONALES]
    ensures forall k :: k in t.fields && !Keyed(k) ==> s.fields[k] == t.fields[k]
  {
    Record(WithLists(t.fields, before.fields[AGENTS], before.fields[RATIONALES]))
  }

  /** What a frame's two lists look like. */
  lemma FrameLists(o: JsObject, t: Tree)
    requires IsFrame(t) && Shows(Obj(o), t)
    ensures t.Record? && o.fields.Keys == t.fields.Keys && AGENTS in t.fields && RATIONALES in t.fields
    ensures forall k :: k in t.fields ==> Shows(o.fields[k], t.fields[k])
    ensures forall k :: Keyed(k) ==> o.fields[k] == Arr(o.fields[k].list) && t.fields[k] == List(t.fields[k].items)
    ensures forall k :: Keyed(k) ==> ItemsAt(o, k) == o.fields[k].list.items && AllObjects(ItemsAt(o, k))
    ensures forall k :: Keyed(k) ==> AllRecords(t.fields[k].items) && |ItemsAt(o, k)| == |t.fields[k].items|
    ensures forall k, i :: Keyed(k) && 0 <= i < |t.fields[k].items| ==> Shows(ItemsAt(o, k)[i], t.fields[k].items[i])
  {
    forall k | Keyed(k) ensures AllObjects(ItemsAt(o, k)) && o.fields[k].Arr? {
      assert Shows(o.fields[k], t.fields[k]);
      assert forall i :: 0 <= i < |t.fields[k].items| ==> Shows(o.fields[k].list.items[i], t.fields[k].items[i]);
    }
  }

  lemma ShowsFields(o: JsObject, t: Tree)
    requires t.Record? && o.fields.Keys == t.fields.Keys
    requires forall k :: k in t.fields ==> Shows(o.fields[k], t.fields[k])
    ensures Shows(Obj(o), t)
  {
  }

  lemma SwappedShows(built: JsObject, prev: JsObject, swapped: JsObject, t: Tree, before: Tree)
    requires IsFrame(t) && IsFrame(before) && Shows(Obj(built), t) && Shows(Obj(prev), before)
    requires AGENTS in prev.fields && RATIONALES in prev.fields
    requires swapped.fields == WithLists(built.fields, prev.fields[AGENTS], prev.fields[RATIONALES])
    ensures Shows(Obj(swapped), SwapTree(t, before))
  {
    hide WithLists, SwapTree, Shows, IsFrame;
    FrameLists(built, t);
    FrameLists(prev, before);
    var s := SwapTree(t, before);
    forall k | k in s.fields ensures Shows(swapped.fields[k], s.fields[k]) {
    }
    ShowsFields(swapped, s);
  }

  lemma RestFields(rest: Ref, swapped: JsObject, built: JsObject, prev: JsObject, t: Tree, before: Tree,
                   made: set<object>)
    requires IsFrame(t) && IsFrame(before) && Shows(Obj(built), t) && Shows(Obj(prev), before) && swapped != prev
    requires AGENTS in prev.fields && RATIONALES in prev.fields
    requires swapped.fields == WithLists(built.fields, prev.fields[AGENTS], prev.fields[RATIONALES])
    requires Shows(Obj(swapped), SwapTree(t, before))
    requires Shares(rest, Obj(swapped), Obj(prev), SwapTree(t, before), made)
    requires Identical(rest, Obj(prev)) <==> Matches(Obj(swapped), Obj(prev), SwapTree(t, before))
    ensures rest.Obj? && RestShares(rest.record, built, prev, t, made) && rest.record.fields.Keys == t.fields.Keys
    ensures rest == Obj(prev) <==> RestKept(built, prev, t)
  {
    hide WithLists, SwapTree, Shows, IsFrame, RestShares, RestKept;
    FrameLists(built, t);
    FrameLists(prev, before);
    ListsMatchThemselves(swapped, prev, before, SwapTree(t, before));
    RestMatch(swapped, built, prev, t, before);
    RestSharing(rest, swapped, built, prev, t, before, made);
  }

  ghost predicate RestShares(rest: JsObject, built: JsObject, prev: JsObject, t: Tree, made: set<object>)
    requires IsFrame(t) && Shows(Obj(built), t)
  {
    && rest.fields.Keys == t.fields.Keys
    && forall k :: k in t.fields && !Keyed(k) ==>
         if RestKept(built, prev, t) then rest.fields[k] == prev.fields[k]
         else Shares(rest.fields[k], built.fields[k], Field(prev.fields, k), t.fields[k], made)
  }

  lemma ListsMatchThemselves(swapped: JsObject, prev: JsObject, before: Tree, s: Tree)
    requires IsFrame(before) && Shows(Obj(prev), before) && Shows(Obj(swapped), s) && s.Record?
    requires AGENTS in s.fields && RATIONALES in s.fields
    requires forall k :: Keyed(k) ==> s.fields[k] == before.fields[k] && swapped.fields[k] == prev.fields[k]
    ensures forall k :: Keyed(k) ==> Matches(swapped.fields[k], prev.fields[k], s.fields[k])
  {
  }

  lemma RestMatch(swapped: JsObject, built: JsObject, prev: JsObject, t: Tree, before: Tree)
    requires IsFrame(t) && IsFrame(before) && Shows(Obj(built), t) && Shows(Obj(prev), before) && swapped != prev
    requires AGENTS in prev.fields && RATIONALES in prev.fields
    requires swapped.fields == WithLists(built.fields, prev.fields[AGENTS], prev.fields[RATIONALES])
    requires Shows(Obj(swapped), SwapTree(t, before))
    requires forall k :: Keyed(k) ==> Matches(swapped.fields[k], prev.fields[k], SwapTree(t, before).fields[k])
    ensures Matches(Obj(swapped), Obj(prev), SwapTree(t, before)) <==> RestKept(built, prev, t)
  {
    hide WithLists, SwapTree, Shows, IsFrame;
    FrameLists(built, t);
    FieldsMatch(swapped, prev, SwapTree(t, before));
    hide Matches;
    forall k | k in t.fields && !Keyed(k)
      ensures swapped.fields[k] == built.fields[k] && SwapTree(t, before).fields[k] == t.fields[k]
    {
    }
  }

  /** What a match of two different objects says of their fields. */
  lemma FieldsMatch(next: JsObject, prev: JsObject, t: Tree)
    requires t.Record? && Shows(Obj(next), t) && next != prev
    ensures var kept := prev.fields.Keys == t.fields.Keys
        && forall k :: k in t.fields ==> Matches(next.fields[k], Field(prev.fields, k), t.fields[k]);
      Matches(Obj(next), Obj(prev), t) <==> kept
  {
  }

  lemma RestSharing(rest: Ref, swapped: JsObject, built: JsObject, prev: JsObject, t: Tree, before: Tree,
                    made: set<object>)
    requires IsFrame(t) && IsFrame(before) && Shows(Obj(built), t) && Shows(Obj(prev), before) && swapped != prev
    requires AGENTS in prev.fields && RATIONALES in prev.fields
    requires swapped.fields == WithLists(built.fields, prev.fields[AGENTS], prev.fields[RATIONALES])
    requires Shows(Obj(swapped), SwapTree(t, before))
    requires Shares(rest, Obj(swapped), Obj(prev), SwapTree(t, before), made)
    requires Matches(Obj(swapped), Obj(prev), SwapTree(t, before)) <==> RestKept(built, prev, t)
    ensures rest.Obj? && RestShares(rest.record, built, prev, t, made) && rest.record.fields.Keys == t.fields.Keys
  {
    hide WithLists, SwapTree, Shows, IsFrame;
    FrameLists(built, t);
    FieldsShare(rest, swapped, prev, SwapTree(t, before), made);
    hide Matches, Shares;
  }

  lemma FieldsShare(r: Ref, next: JsObject, prev: JsObject, t: Tree, made: set<object>)
    requires t.Record? && Shows(Obj(next), t) && Shares(r, Obj(next), Obj(prev), t, made)
    ensures if Matches(Obj(next), Obj(prev), t) then r == Obj(prev)
      else r.Obj? && r.record.fields.Keys == t.fields.Keys && forall k :: k in t.fields ==>
        Shares(r.record.fields[k], next.fields[k], Field(prev.fields, k), t.fields[k], made)
  {
  }

  lemma FrameAssembled(r: JsObject, rest: Ref, agents: JsArray, rationales: JsArray, built: JsObject, prev: JsObject,
                       t: Tree, madeA: set<object>, madeR: set<object>, madeS: set<object>, made: set<object>)
    requires IsFrame(t) && Shows(Obj(built), t) && rest.Obj? && RestShares(rest.record, built, prev, t, madeS)
    requires Arr(agents) == Field(r.fields, AGENTS) && Arr(rationales) == Field(r.fields, RATIONALES)
    requires r.fields.Keys == t.fields.Keys
    requires forall k :: k in t.fields && !Keyed(k) ==> r.fields[k] == rest.record.fields[k]
    requires |agents.items| == |t.fields[AGENTS].items| && |rationales.items| == |t.fields[RATIONALES].items|
    requires SharesByKey(agents.items, ItemsAt(built, AGENTS), ItemsAt(prev, AGENTS), "id", t.fields[AGENTS].items,
      madeA)
    requires SharesByKey(rationales.items, ItemsAt(built, RATIONALES), ItemsAt(prev, RATIONALES), "seq",
      t.fields[RATIONALES].items, madeR)
    requires madeA + madeR + madeS <= made
    ensures FrameShares(r, built, prev, t, made)
  {
    hide Shows, SharesByKey, IsFrame;
    FrameLists(built, t);
    KeyedMore(agents.items, ItemsAt(built, AGENTS), ItemsAt(prev, AGENTS), "id", t.fields[AGENTS].items, madeA, made);
    KeyedMore(rationales.items, ItemsAt(built, RATIONALES), ItemsAt(prev, RATIONALES), "seq",
      t.fields[RATIONALES].items, madeR, made);
    hide Shares, RestKept;
    forall k | k in t.fields && !Keyed(k) && !RestKept(built, prev, t)
      ensures Shares(r.fields[k], built.fields[k], Field(prev.fields, k), t.fields[k], made)
    {
      MadeMore(r.fields[k], built.fields[k], Field(prev.fields, k), t.fields[k], madeS, made);
    }
  }

  /** Sharing keeps the value of the whole frame, up to signs of zeros. */
  lemma FrameShowsValue(r: JsObject, built: JsObject, prev: JsObject, t: Tree, made: set<object>)
    requires IsFrame(t) && Shows(Obj(built), t) && FrameShares(r, built, prev, t, made)
    ensures Shows(Obj(r), t)
  {
    hide Shows, IsFrame, Shares, SharesByKey, Matches;
    FrameLists(built, t);
    ListShowsValue(ItemsAt(r, AGENTS), ItemsAt(built, AGENTS), ItemsAt(prev, AGENTS), "id", t.fields[AGENTS].items,
      made);
    ListShowsValue(ItemsAt(r, RATIONALES), ItemsAt(built, RATIONALES), ItemsAt(prev, RATIONALES), "seq",
      t.fields[RATIONALES].items, made);
    forall k | k in t.fields ensures Shows(r.fields[k], t.fields[k]) {
      if Keyed(k) {
        ListShows(r.fields[k].list, t.fields[k]);
      } else {
        if RestKept(built, prev, t) {
          MatchShowsValue(built.fields[k], prev.fields[k], t.fields[k]);
        } else {
          SharingKeepsValue(r.fields[k], built.fields[k], Field(prev.fields, k), t.fields[k], made);
        }
      }
    }
    ShowsFields(r, t);
  }

  lemma ListShows(o: JsArray, t: Tree)
    requires t.List? && |o.items| == |t.items| && forall i :: 0 <= i < |t.items| ==> Shows(o.items[i], t.items[i])
    ensures Shows(Arr(o), t)
  {
  }

  lemma ListShowsValue(out: seq<Ref>, items: seq<Ref>, was: seq<Ref>, name: string, t: seq<Tree>, made: set<object>)
    requires SharesByKey(out, items, was, name, t, made)
    ensures forall i :: 0 <= i < |out| ==> Shows(out[i], t[i])
  {
    hide Shows, Shares, Counterpart;
    forall i | 0 <= i < |out| ensures Shows(out[i], t[i]) {
      SharingKeepsValue(out[i], items[i], Counterpart(was, name, items[i]), t[i], made);
    }
  }

  ghost predicate ListSignsAgree(items: seq<Ref>, was: seq<Ref>, name: string, t: seq<Tree>) {
    && |items| == |t|
    && forall i :: 0 <= i < |t| ==>
         Shows(items[i], t[i]) && SignsAgree(items[i], Counterpart(was, name, items[i]), t[i])
  }

  ghost predicate FrameSignsAgree(built: JsObject, prev: JsObject, t: Tree)
    requires IsFrame(t) && Shows(Obj(built), t)
  {
    && ListSignsAgree(ItemsAt(built, AGENTS), ItemsAt(prev, AGENTS), "id", t.fields[AGENTS].items)
    && ListSignsAgree(ItemsAt(built, RATIONALES), ItemsAt(prev, RATIONALES), "seq", t.fields[RATIONALES].items)
    && forall k :: k in t.fields && !Keyed(k) ==>
         if RestKept(built, prev, t) then ReadAlike(built.fields[k], prev.fields[k], t.fields[k])
         else SignsAgree(built.fields[k], Field(prev.fields, k), t.fields[k])
  }

  lemma ListSignsExactly(out: seq<Ref>, items: seq<Ref>, was: seq<Ref>, name: string, t: seq<Tree>, made: set<object>)
    requires SharesByKey(out, items, was, name, t, made) && |out| == |t|
    ensures (forall i :: 0 <= i < |t| ==> ReadAlike(items[i], out[i], t[i])) <==> ListSignsAgree(items, was, name, t)
  {
    hide Shows, Shares, ReadAlike, SignsAgree, Counterpart;
    forall i | 0 <= i < |t|
      ensures ReadAlike(items[i], out[i], t[i]) <==> SignsAgree(items[i], Counterpart(was, name, items[i]), t[i])
    {
      SignsKeptExactly(out[i], items[i], Counterpart(was, name, items[i]), t[i], made);
    }
  }

  /** The frame reads exactly like the one built if and only if the signs agree wherever something
      of the previous frame stands for it. */
  lemma FrameSignsExactly(r: JsObject, built: JsObject, prev: JsObject, t: Tree, made: set<object>)
    requires IsFrame(t) && Shows(Obj(built), t) && FrameShares(r, built, prev, t, made)
    ensures ReadAlike(Obj(built), Obj(r), t) <==> FrameSignsAgree(built, prev, t)
  {
    hide Shows, IsFrame, Shares, SharesByKey, Matches, SignsAgree, RestKept, ListSignsAgree;
    FrameLists(built, t);
    FieldsReadAlike(built, r, t);
    ListSignsExactly(ItemsAt(r, AGENTS), ItemsAt(built, AGENTS), ItemsAt(prev, AGENTS), "id", t.fields[AGENTS].items,
      made);
    ListSignsExactly(ItemsAt(r, RATIONALES), ItemsAt(built, RATIONALES), ItemsAt(prev, RATIONALES), "seq",
      t.fields[RATIONALES].items, made);
    ItemsReadAlike(built.fields[AGENTS], r.fields[AGENTS], t.fields[AGENTS]);
    ItemsReadAlike(built.fields[RATIONALES], r.fields[RATIONALES], t.fields[RATIONALES]);
    hide ReadAlike;
    forall k | k in t.fields && !Keyed(k) && !RestKept(built, prev, t)
      ensures ReadAlike(built.fields[k], r.fields[k], t.fields[k])
        <==> SignsAgree(built.fields[k], Field(prev.fields, k), t.fields[k])
    {
      SignsKeptExactly(r.fields[k], built.fields[k], Field(prev.fields, k), t.fields[k], made);
    }
  }

  lemma FieldsReadAlike(a: JsObject, b: JsObject, t: Tree)
    requires t.Record? && a.fields.Keys == b.fields.Keys == t.fields.Keys
    ensures ReadAlike(Obj(a), Obj(b), t) <==>
      forall k :: k in t.fields ==> ReadAlike(a.fields[k], b.fields[k], t.fields[k])
  {
  }

  lemma ItemsReadAlike(a: Ref, b: Ref, t: Tree)
    requires t.List? && a.Arr? && b.Arr? && |a.list.items| == |b.list.items| == |t.items|
    ensures ReadAlike(a, b, t) <==>
      forall i :: 0 <= i < |t.items| ==> ReadAlike(a.list.items[i], b.list.items[i], t.items[i])
  {
  }

  // ----- Freshly built frames -----

  /** For a fresh list: kept exactly when the values are equal, free of NaN, and the old list steady. */
  lemma FreshListKept(items: seq<Ref>, was: seq<Ref>, name: string, t: seq<Tree>, before: seq<Tree>, olds: set<object>)
    requires |items| == |t| && forall i :: 0 <= i < |t| ==> Shows(items[i], t[i]) && Outside(items[i], t[i], olds)
    requires |was| == |before|
    requires forall i :: 0 <= i < |before| ==> Shows(was[i], before[i]) && Within(was[i], before[i], olds)
    ensures ListKept(items, was, name, t) <==> t == before && NaNFree(List(t)) && Steady(was, name)
  {
    hide Shows, Outside, Within, Matches, ByKey, KeyOf;
    if |t| == |before| {
      forall i | 0 <= i < |t|
        ensures Matches(items[i], was[i], t[i]) <==> t[i] == before[i] && NaNFree(t[i])
        ensures t[i] == before[i] ==> Counterpart(was, name, items[i]) == Counterpart(was, name, was[i])
      {
        FreshMatch(items[i], was[i], t[i], before[i], olds);
        if t[i] == before[i] {
          OneKey(items[i], was[i], t[i], name);
        }
      }
      hide Counterpart;
      assert ListKept(items, was, name, t) ==> t == before;
    }
  }

  /** Both keyed lists of the frame are steady. */
  ghost predicate SteadyFrame(prev: JsObject) {
    Steady(ItemsAt(prev, AGENTS), "id") && Steady(ItemsAt(prev, RATIONALES), "seq")
  }

  /** A freshly built frame gives back the previous frame exactly when the two show one value, it
      holds no NaN, and no key of the previous lists belongs to two objects. */
  lemma FreshFrameKept(built: JsObject, prev: JsObject, t: Tree, before: Tree, olds: set<object>)
    requires IsFrame(t) && Shows(Obj(built), t) && Outside(Obj(built), t, olds)
    requires IsFrame(before) && Shows(Obj(prev), before) && Within(Obj(prev), before, olds)
    ensures FrameKept(built, prev, t) <==> t == before && NaNFree(t) && SteadyFrame(prev)
  {
    hide Shows, IsFrame, Matches, Steady, ListKept, Outside, Within;
    FrameLists(built, t);
    FrameLists(prev, before);
    FreshFields(built, t, olds);
    OldFields(prev, before, olds);
    FreshListKept(ItemsAt(built, AGENTS), ItemsAt(prev, AGENTS), "id", t.fields[AGENTS].items,
      before.fields[AGENTS].items, olds);
    FreshListKept(ItemsAt(built, RATIONALES), ItemsAt(prev, RATIONALES), "seq",
      t.fields[RATIONALES].items, before.fields[RATIONALES].items, olds);
    if t.fields.Keys == before.fields.Keys {
      forall k | k in t.fields && !Keyed(k)
        ensures Matches(built.fields[k], Field(prev.fields, k), t.fields[k])
          <==> t.fields[k] == before.fields[k] && NaNFree(t.fields[k])
      {
        FreshMatch(built.fields[k], prev.fields[k], t.fields[k], before.fields[k], olds);
      }
      if FrameKept(built, prev, t) {
        assert forall k :: k in t.fields ==> t.fields[k] == before.fields[k] && NaNFree(t.fields[k]);
        assert t.fields == before.fields;
      }
    }
  }

  lemma FreshFields(o: JsObject, t: Tree, olds: set<object>)
    requires IsFrame(t) && Shows(Obj(o), t) && Outside(Obj(o), t, olds)
    ensures forall k :: k in t.fields ==> Outside(o.fields[k], t.fields[k], olds)
    ensures forall k :: Keyed(k) ==> |ItemsAt(o, k)| == |t.fields[k].items|
    ensures forall k, i :: Keyed(k) && 0 <= i < |t.fields[k].items| ==>
      Shows(ItemsAt(o, k)[i], t.fields[k].items[i]) && Outside(ItemsAt(o, k)[i], t.fields[k].items[i], olds)
  {
    FrameLists(o, t);
    forall k | Keyed(k) ensures Shows(o.fields[k], t.fields[k]) && Outside(o.fields[k], t.fields[k], olds) {
    }
  }

  lemma OldFields(o: JsObject, t: Tree, olds: set<object>)
    requires IsFrame(t) && Shows(Obj(o), t) && Within(Obj(o), t, olds)
    ensures forall k :: k in t.fields ==> Within(o.fields[k], t.fields[k], olds)
    ensures forall k :: Keyed(k) ==> |ItemsAt(o, k)| == |t.fields[k].items|
    ensures forall k, i :: Keyed(k) && 0 <= i < |t.fields[k].items| ==>
      Shows(ItemsAt(o, k)[i], t.fields[k].items[i]) && Within(ItemsAt(o, k)[i], t.fields[k].items[i], olds)
  {
    FrameLists(o, t);
    forall k | Keyed(k) ensures Shows(o.fields[k], t.fields[k]) && Within(o.fields[k], t.fields[k], olds) {
    }
  }

  const TELEMETRY := "telemetry"

  /** The clock stands in every frame, so a frame built at another time is never the previous one,
      even for an unchanged wire frame. */
  lemma LaterFrameIsRebuilt(built: JsObject, prev: JsObject, t: Tree, before: Tree, olds: set<object>)
    requires IsFrame(t) && Shows(Obj(built), t) && Outside(Obj(built), t, olds)
    requires IsFrame(before) && Shows(Obj(prev), before) && Within(Obj(prev), before, olds)
    requires TELEMETRY in t.fields && t.fields[TELEMETRY].Record? && "ts" in t.fields[TELEMETRY].fields
    requires TELEMETRY in before.fields && before.fields[TELEMETRY].Record? && "ts" in before.fields[TELEMETRY].fields
    requires t.fields[TELEMETRY].fields["ts"] != before.fields[TELEMETRY].fields["ts"]
    ensures !FrameKept(built, prev, t)
  {
    FreshFrameKept(built, prev, t, before, olds);
  }

  // ----- What sharing does not keep apart -----

  /** A zero keeps the sign it had before: whatever `share` makes of a list holding -0 and the old
      list holding 0 is the old list, which does not read like the new one. */
  lemma OldZeroStays(r: Ref, next: JsArray, prev: JsArray, made: set<object>)
    requires next.items == [Prim(Num(NegativeZero))] && prev.items == [Prim(Num(Finite(0.0)))]
    requires Shares(r, Arr(next), Arr(prev), List([Leaf(Num(Finite(0.0)))]), made)
    ensures r == Arr(prev) && !ReadAlike(Arr(next), r, List([Leaf(Num(Finite(0.0)))]))
  {
    var t := List([Leaf(Num(Finite(0.0)))]);
    assert !ReadAlike(next.items[0], prev.items[0], t.items[0]);
  }

  method OldZeroIsKept() returns (prev: JsArray, next: JsArray, r: Ref, ghost made: set<object>)
    ensures prev.items == [Prim(Num(Finite(0.0)))] && next.items == [Prim(Num(NegativeZero))]
    ensures Shares(r, Arr(next), Arr(prev), List([Leaf(Num(Finite(0.0)))]), made)
    ensures r == Arr(prev) && !ReadAlike(Arr(next), r, List([Leaf(Num(Finite(0.0)))]))
  {
    prev := new JsArray([Prim(Num(Finite(0.0)))]);
    next := new JsArray([Prim(Num(NegativeZero))]);
    r, made := Share(Arr(next), Arr(prev), List([Leaf(Num(Finite(0.0)))]));
    OldZeroStays(r, next, prev, made);
  }

  /** Whatever `share` makes of two different lists holding a NaN is not the old list, although
      nothing in it changed. */
  lemma NaNRebuilds(r: Ref, next: JsArray, prev: JsArray, made: set<object>)
    requires next.items == prev.items == [Prim(Num(NaN))] && next != prev && prev !in made
    requires Shares(r, Arr(next), Arr(prev), List([Leaf(Num(NaN))]), made)
    ensures r.Arr? && r != Arr(prev) && r.list in made
  {
    assert !Matches(next.items[0], prev.items[0], Leaf(Num(NaN)));
  }

  method NaNIsRebuilt() returns (prev: JsArray, next: JsArray, r: Ref, ghost made: set<object>)
    ensures prev.items == next.items == [Prim(Num(NaN))]
    ensures Shares(r, Arr(next), Arr(prev), List([Leaf(Num(NaN))]), made)
    ensures r.Arr? && r != Arr(prev) && r.list in made
  {
    prev := new JsArray([Prim(Num(NaN))]);
    next := new JsArray([Prim(Num(NaN))]);
    r, made := Share(Arr(next), Arr(prev), List([Leaf(Num(NaN))]));
    NaNRebuilds(r, next, prev, made);
  }

  /** Whatever `shareByKey` makes of two lists with two objects each under one key is not the old
      list, although the values are equal: the first place takes the second old object. */
  lemma SecondObjectRebuilds(r: JsArray, next: JsArray, prev: JsArray, seqNo: Scalar, made: set<object>)
    requires |next.items| == |prev.items| == |r.items| == 2 && prev.items[0] != prev.items[1]
    requires forall i :: 0 <= i < 2 ==> IsEntry(next.items[i], seqNo) && IsEntry(prev.items[i], seqNo)
    requires seqNo != Num(NaN)
    requires SharesByKey(r.items, next.items, prev.items, "seq", [EntryTree(seqNo), EntryTree(seqNo)], made)
    ensures r.items[0] == r.items[1] == prev.items[1] && r != prev
  {
    var t := EntryTree(seqNo);
    forall i | 0 <= i < 2 ensures r.items[i] == prev.items[1] {
      EntryShows(next.items[i], seqNo);
      EntryShows(prev.items[0], seqNo);
      EntryShows(prev.items[1], seqNo);
      var last := CounterpartIsLast(prev.items, "seq", next.items[i]);
      EqualValuesMatch(next.items[i], prev.items[1], t);
    }
  }

  method SecondObjectOfAKey(seqNo: Scalar) returns (prev: JsArray, next: JsArray, r: JsArray, ghost made: set<object>)
    ensures Shows(Arr(prev), List([EntryTree(seqNo), EntryTree(seqNo)]))
    ensures Shows(Arr(next), List([EntryTree(seqNo), EntryTree(seqNo)]))
    ensures SharesByKey(r.items, next.items, prev.items, "seq", [EntryTree(seqNo), EntryTree(seqNo)], made)
    ensures r != prev
  {
    var a := new JsObject(map["seq" := Prim(seqNo)]);
    var b := new JsObject(map["seq" := Prim(seqNo)]);
    prev := new JsArray([Obj(a), Obj(b)]);
    var c := new JsObject(map["seq" := Prim(seqNo)]);
    var d := new JsObject(map["seq" := Prim(seqNo)]);
    next := new JsArray([Obj(c), Obj(d)]);
    EntryShows(Obj(a), seqNo);
    EntryShows(Obj(b), seqNo);
    EntryShows(Obj(c), seqNo);
    EntryShows(Obj(d), seqNo);
    ghost var last := CounterpartIsLast(prev.items, "seq", Obj(c));
    assert KeyOf(prev.items[1], "seq") == KeyOf(Obj(c), "seq");
    r, made := ShareByKey(next, prev, "seq", [EntryTree(seqNo), EntryTree(seqNo)]);
    assert !ItemKept(next.items[0], prev.items, "seq", 0, EntryTree(seqNo));
  }

  ghost predicate IsEntry(item: Ref, seqNo: Scalar) {
    item.Obj? && item.record.fields == map["seq" := Prim(seqNo)]
  }

  lemma EntryShows(item: Ref, seqNo: Scalar)
    requires IsEntry(item, seqNo)
    ensures Shows(item, EntryTree(seqNo)) && KeyOf(item, "seq") == Unsigned(seqNo)
  {
  }

  function EntryTree(seqNo: Scalar): Tree {
    Record(map["seq" := Leaf(Unsigned(seqNo))])
  }
}
