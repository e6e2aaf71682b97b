/** What edits promise of the records a reader sees: no lie about a change, nothing lost, and an undo. */
module EditLaws {
  import opened RecordTables
  import opened Editors

  // ------------------------------------------------------------- about lists

  lemma {:induction false} PresentAll<T>(xs: seq<Option<T>>)
    requires forall i | 0 <= i < |xs| :: xs[i].Some?
    ensures |Present(xs)| == |xs| && forall i | 0 <= i < |xs| :: Present(xs)[i] == xs[i].value
  {
    if xs != [] { PresentAll(xs[1..]); }
  }

  lemma {:induction false} PresentLoses<T>(xs: seq<Option<T>>)
    ensures |Present(xs)| <= |xs|
    ensures (exists i | 0 <= i < |xs| :: xs[i].None?) <==> |Present(xs)| < |xs|
  {
    if xs != [] {
      PresentLoses(xs[1..]);
      assert forall i | 1 <= i < |xs| :: xs[i] == xs[1..][i - 1];
    }
  }

  lemma {:induction false} PresentMembers<T>(xs: seq<Option<T>>)
    ensures forall x :: x in Present(xs) <==> Some(x) in xs
  {
    if xs != [] {
      PresentMembers(xs[1..]);
      assert xs == [xs[0]] + xs[1..];
    }
  }

  // --------------------------------------------------------- remove, as a reader sees it

  lemma ViewOfWithArray(t: Table)
    requires !t.values.NotArray?
    ensures View(WithArray(t)) == View(t)
  {
  }

  /** A table survives looking as it did exactly when the removal did not touch it. */
  lemma RemoveFromView(t: Table, name: string, rtype: Option<string>, drop: seq<string>)
    requires !Stuck(t, name, rtype, drop)
    ensures var r := RemoveFrom(t, name, rtype, drop);
            r.Some? && View(r.value) == View(t) <==> !Touched(t, name, rtype, drop)
  {
    if Wanted(t, name, rtype) && drop != [] {
      ViewOfWithArray(t);
      StringsOfBuilt(Kept(ValuesOf(t), drop));
    }
  }

  /** `Removed` or `Unchanged` is told truly: the record view changes exactly when some table was touched. */
  lemma RemoveTellsTheTruth(tables: seq<Table>, name: string, rtype: Option<string>, drop: seq<string>)
    requires !SomeStuck(tables, |tables|, name, rtype, drop)
    ensures Records(RemoveSpec(tables, name, rtype, drop)) == Records(tables) <==> !SomeTouched(tables, |tables|, name, rtype, drop)
  {
    var outcomes := Outcomes(tables, name, rtype, drop);
    PresentLoses(outcomes);
    forall i | 0 <= i < |tables|
      ensures outcomes[i].Some? && View(outcomes[i].value) == View(tables[i]) <==> !Touched(tables[i], name, rtype, drop)
    {
      RemoveFromView(tables[i], name, rtype, drop);
    }
    if |Present(outcomes)| == |tables| {
      PresentAll(outcomes);
      AllTold(tables, outcomes, name, rtype, drop);
    }
  }

  lemma AllTold(tables: seq<Table>, outcomes: seq<Option<Table>>, name: string, rtype: Option<string>, drop: seq<string>)
    requires |outcomes| == |tables| == |Present(outcomes)|
    requires forall i | 0 <= i < |tables| :: outcomes[i].Some? && Present(outcomes)[i] == outcomes[i].value
    requires forall i | 0 <= i < |tables| :: View(outcomes[i].value) == View(tables[i]) <==> !Touched(tables[i], name, rtype, drop)
    ensures Records(Present(outcomes)) == Records(tables) <==> !SomeTouched(tables, |tables|, name, rtype, drop)
  {
    var now := Present(outcomes);
    if Records(now) == Records(tables) {
      forall i | 0 <= i < |tables| ensures !Touched(tables[i], name, rtype, drop) {
        assert Records(now)[i] == Records(tables)[i];
      }
    } else {
      var i :| 0 <= i < |tables| && Records(now)[i] != Records(tables)[i];
    }
  }

  /** What survives of a wanted table holds nothing that was to be dropped. */
  lemma SurvivorIsClean(t: Table, name: string, rtype: Option<string>, drop: seq<string>)
    requires RemoveFrom(t, name, rtype, drop).Some? && Wanted(RemoveFrom(t, name, rtype, drop).value, name, rtype)
    ensures drop != [] && forall v | v in drop :: v !in ValuesOf(RemoveFrom(t, name, rtype, drop).value)
  {
    StillWanted(t, name, rtype, drop);
    StringsOfBuilt(Kept(ValuesOf(t), drop));
  }

  /** What was asked to go is gone: no wanted table is left, or none with a dropped value. */
  lemma RemovedIsGone(tables: seq<Table>, name: string, rtype: Option<string>, drop: seq<string>, t: Table)
    requires t in RemoveSpec(tables, name, rtype, drop) && Wanted(t, name, rtype)
    ensures drop != [] && forall v | v in drop :: v !in ValuesOf(t)
  {
    var i := SurvivorOf(Outcomes(tables, name, rtype, drop), t);
    SurvivorIsClean(tables[i], name, rtype, drop);
  }

  lemma SurvivorOf<T>(outcomes: seq<Option<T>>, t: T) returns (i: nat)
    requires t in Present(outcomes)
    ensures i < |outcomes| && outcomes[i] == Some(t)
  {
    PresentMembers(outcomes);
    i :| i < |outcomes| && outcomes[i] == Some(t);
  }

  /** So a second removal finds nothing to do. */
  lemma RemoveIsIdempotent(tables: seq<Table>, name: string, rtype: Option<string>, drop: seq<string>)
    requires !SomeStuck(tables, |tables|, name, rtype, drop)
    ensures var now := RemoveSpec(tables, name, rtype, drop);
            !SomeTouched(now, |now|, name, rtype, drop) && RemoveSpec(now, name, rtype, drop) == now
  {
    var now := RemoveSpec(tables, name, rtype, drop);
    forall i | 0 <= i < |now|
      ensures !Touched(now[i], name, rtype, drop) && RemoveFrom(now[i], name, rtype, drop) == Some(now[i])
    {
      var j := SurvivorOf(Outcomes(tables, name, rtype, drop), now[i]);
      SecondTime(tables[j], name, rtype, drop);
    }
    PresentAll(Outcomes(now, name, rtype, drop));
    assert RemoveSpec(now, name, rtype, drop) == now;
  }

  lemma SecondTime(t: Table, name: string, rtype: Option<string>, drop: seq<string>)
    requires !Stuck(t, name, rtype, drop) && RemoveFrom(t, name, rtype, drop).Some?
    ensures var r := RemoveFrom(t, name, rtype, drop).value;
            !Touched(r, name, rtype, drop) && RemoveFrom(r, name, rtype, drop) == Some(r)
  {
    if Wanted(t, name, rtype) {
      StringsOfBuilt(Kept(ValuesOf(t), drop));
    }
  }

  function Others(tables: seq<Table>, name: string, rtype: Option<string>): seq<Table> {
    if tables == [] then []
    else (if Wanted(tables[0], name, rtype) then [] else [tables[0]]) + Others(tables[1..], name, rtype)
  }

  lemma OthersCons(t: Table, rest: seq<Table>, name: string, rtype: Option<string>)
    ensures Others([t] + rest, name, rtype) == (if Wanted(t, name, rtype) then [] else [t]) + Others(rest, name, rtype)
  {
    assert ([t] + rest)[1..] == rest;
  }

  lemma RemoveSpecCons(t: Table, rest: seq<Table>, name: string, rtype: Option<string>, drop: seq<string>)
    ensures RemoveSpec([t] + rest, name, rtype, drop)
         == (match RemoveFrom(t, name, rtype, drop) case Some(t') => [t'] case None => []) + RemoveSpec(rest, name, rtype, drop)
  {
    assert Outcomes([t] + rest, name, rtype, drop)[1..] == Outcomes(rest, name, rtype, drop);
  }

  /** Every other record set is as it was, in the order it was in. */
  lemma {:induction false} OthersAreKept(tables: seq<Table>, name: string, rtype: Option<string>, drop: seq<string>)
    ensures Others(RemoveSpec(tables, name, rtype, drop), name, rtype) == Others(tables, name, rtype)
  {
    if tables != [] {
      var t, rest := tables[0], tables[1..];
      assert tables == [t] + rest;
      OthersAreKept(rest, name, rtype, drop);
      OthersCons(t, rest, name, rtype);
      RemoveSpecCons(t, rest, name, rtype, drop);
      OthersHead(t, RemoveSpec(rest, name, rtype, drop), name, rtype, drop);
    }
  }

  lemma OthersHead(t: Table, rest: seq<Table>, name: string, rtype: Option<string>, drop: seq<string>)
    ensures Others((match RemoveFrom(t, name, rtype, drop) case Some(t') => [t'] case None => []) + rest, name, rtype)
         == (if Wanted(t, name, rtype) then [] else [t]) + Others(rest, name, rtype)
  {
    var outcome := RemoveFrom(t, name, rtype, drop);
    if outcome.Some? {
      StillWanted(t, name, rtype, drop);
      OthersCons(outcome.value, rest, name, rtype);
    } else {
      assert [] + rest == rest;
    }
  }

  lemma StillWanted(t: Table, name: string, rtype: Option<string>, drop: seq<string>)
    requires RemoveFrom(t, name, rtype, drop).Some?
    ensures Wanted(RemoveFrom(t, name, rtype, drop).value, name, rtype) <==> Wanted(t, name, rtype)
    ensures !Wanted(t, name, rtype) ==> RemoveFrom(t, name, rtype, drop).value == t
  {
  }

  // ----------------------------------------------------------------- add

  /** An edit as `add` makes it: a normalised name, an upper-case type, a value at least, a 32-bit TTL. */
  predicate Proper(name: string, rtype: string, values: seq<string>, ttl: Option<nat>) {
    && NormaliseName(name) == name && ToUpper(rtype) == rtype && values != []
    && (ttl.Some? ==> ttl.value <= MAX_U32)
  }

  lemma {:induction false} MatchAt(tables: seq<Table>, name: string, rtype: string, i: nat)
    requires i < |tables| && Matches(tables[i], name, rtype)
    requires forall k | 0 <= k < i :: !Matches(tables[k], name, rtype)
    ensures FirstMatch(tables, name, rtype) == i
  {
    var f := FirstMatch(tables, name, rtype);
    assert f <= i;
  }

  /** The set after an edit that was not refused: every value, the TTL asked for, and on a replacement nothing else. */
  ghost predicate Holds(t: Table, was: seq<string>, values: seq<string>, ttl: Option<nat>, replace: bool) {
    && (if replace then ValuesOf(t) == values && TtlOf(t) == ttl
        else was <= ValuesOf(t) && (forall v :: v in ValuesOf(t) <==> v in was || v in values) && (ttl.Some? ==> TtlOf(t) == ttl))
  }

  /** The edited table, field by field. */
  ghost predicate Fields(t: Table, t': Table, values: seq<string>, ttl: Option<nat>, replace: bool) {
    && t'.name == t.name && t'.rtype == t.rtype && t'.values.Array?
    && TtlOf(t') == (if replace || ttl.Some? then ttl else TtlOf(t))
    && ValuesOf(t') == if replace then values else ValuesOf(t) + MissingFrom(values, ValuesOf(t))
  }

  lemma ReplacedFields(t: Table, values: seq<string>, ttl: Option<nat>)
    requires !t.values.NotArray? && (ttl.Some? ==> ttl.value <= MAX_U32)
    ensures Fields(t, AddTo(t, values, ttl, true).1, values, ttl, true)
  {
    StringsOfBuilt(values);
  }

  lemma ExtendedFields(t: Table, values: seq<string>, ttl: Option<nat>)
    requires !t.values.NotArray? && (ttl.Some? ==> ttl.value <= MAX_U32)
    ensures Fields(t, AddTo(t, values, ttl, false).1, values, ttl, false)
  {
    var missing := MissingFrom(values, ValuesOf(t));
    StringsOfBuilt(missing);
    StringsJoin(ElementsOf(t), BuildArray(missing));
  }

  lemma AddToFields(t: Table, values: seq<string>, ttl: Option<nat>, replace: bool)
    requires !t.values.NotArray? && (ttl.Some? ==> ttl.value <= MAX_U32)
    ensures Fields(t, AddTo(t, values, ttl, replace).1, values, ttl, replace)
  {
    if replace { ReplacedFields(t, values, ttl); } else { ExtendedFields(t, values, ttl); }
  }

  lemma AddToHolds(t: Table, t': Table, values: seq<string>, ttl: Option<nat>, replace: bool)
    requires Fields(t, t', values, ttl, replace)
    ensures Holds(t', ValuesOf(t), values, ttl, replace)
  {
  }

  lemma NewTableHolds(name: string, rtype: string, values: seq<string>, ttl: Option<nat>, replace: bool)
    requires Proper(name, rtype, values, ttl)
    ensures var t := NewTable(name, rtype, values, ttl); Matches(t, name, rtype) && Holds(t, [], values, ttl, replace)
  {
    StringsOfBuilt(values);
  }

  /** Where the set stood, or was put, after an edit that was not refused; and no other table is touched. */
  lemma AddReaches(tables: seq<Table>, name: string, rtype: string, values: seq<string>, ttl: Option<nat>, replace: bool)
    requires Proper(name, rtype, values, ttl) && AddSpec(tables, name, rtype, values, ttl, replace).Ok?
    ensures var now := AddSpec(tables, name, rtype, values, ttl, replace).value.1;
            var i := FirstMatch(tables, name, rtype);
            && FirstMatch(now, name, rtype) == i < |now| && now[i].values.Array?
            && Holds(now[i], if i < |tables| then ValuesOf(tables[i]) else [], values, ttl, replace)
            && |now| == (if i < |tables| then |tables| else |tables| + 1)
            && forall k | 0 <= k < |tables| && k != i :: now[k] == tables[k]
  {
    var now := AddSpec(tables, name, rtype, values, ttl, replace).value.1;
    var i := FirstMatch(tables, name, rtype);
    if i < |tables| {
      AddToFields(tables[i], values, ttl, replace);
      AddToHolds(tables[i], now[i], values, ttl, replace);
    } else {
      NewTableHolds(name, rtype, values, ttl, replace);
    }
    MatchAt(now, name, rtype, i);
  }

  /** Asking again for what is already so changes nothing. */
  lemma AddAgain(t: Table, was: seq<string>, values: seq<string>, ttl: Option<nat>, replace: bool)
    requires t.values.Array? && Holds(t, was, values, ttl, replace)
    ensures AddTo(t, values, ttl, replace) == (Unchanged, t)
  {
  }

  lemma AddIsIdempotent(tables: seq<Table>, name: string, rtype: string, values: seq<string>, ttl: Option<nat>, replace: bool)
    requires Proper(name, rtype, values, ttl) && AddSpec(tables, name, rtype, values, ttl, replace).Ok?
    ensures var now := AddSpec(tables, name, rtype, values, ttl, replace).value.1;
            AddSpec(now, name, rtype, values, ttl, replace) == Ok((Unchanged, now))
  {
    AddReaches(tables, name, rtype, values, ttl, replace);
    var now := AddSpec(tables, name, rtype, values, ttl, replace).value.1;
    var i := FirstMatch(tables, name, rtype);
    AddAgain(now[i], if i < |tables| then ValuesOf(tables[i]) else [], values, ttl, replace);
    assert now[i := now[i]] == now;
  }

  lemma AddToTellsTheTruth(t: Table, values: seq<string>, ttl: Option<nat>, replace: bool)
    requires !t.values.NotArray? && (ttl.Some? ==> ttl.value <= MAX_U32)
    ensures var (change, t') := AddTo(t, values, ttl, replace);
            change == Unchanged <==> View(t') == View(t)
  {
    AddToFields(t, values, ttl, replace);
    UnchangedIff(t, values, ttl, replace);
  }

  lemma UnchangedIff(t: Table, values: seq<string>, ttl: Option<nat>, replace: bool)
    requires !t.values.NotArray?
    ensures AddTo(t, values, ttl, replace).0 == Unchanged
       <==> if replace then ValuesOf(t) == values && TtlOf(t) == ttl
            else MissingFrom(values, ValuesOf(t)) == [] && (ttl.Some? ==> TtlOf(t) == ttl)
  {
  }

  /** `Unchanged` is returned exactly when the record view did not change. */
  lemma AddTellsTheTruth(tables: seq<Table>, name: string, rtype: string, values: seq<string>, ttl: Option<nat>, replace: bool)
    requires Proper(name, rtype, values, ttl) && AddSpec(tables, name, rtype, values, ttl, replace).Ok?
    ensures var (change, now) := AddSpec(tables, name, rtype, values, ttl, replace).value;
            change == Unchanged <==> Records(now) == Records(tables)
  {
    var (change, now) := AddSpec(tables, name, rtype, values, ttl, replace).value;
    var i := FirstMatch(tables, name, rtype);
    if i < |tables| {
      AddToTellsTheTruth(tables[i], values, ttl, replace);
      if change == Unchanged {
        assert forall k | 0 <= k < |tables| :: Records(now)[k] == Records(tables)[k];
      } else {
        assert Records(now)[i] != Records(tables)[i];
      }
    } else {
      assert |Records(now)| != |Records(tables)|;
    }
  }

  // ------------------------------------------------------------------ undo

  lemma PresentCons<T>(x: Option<T>, xs: seq<Option<T>>)
    ensures Present([x] + xs) == (if x.Some? then [x.value] else []) + Present(xs)
  {
    assert ([x] + xs)[1..] == xs;
  }

  lemma {:induction false} PresentSnoc<T>(xs: seq<Option<T>>, x: Option<T>)
    ensures Present(xs + [x]) == Present(xs) + if x.Some? then [x.value] else []
  {
    if xs == [] {
      assert xs + [x] == [x] + [];
      PresentCons(x, []);
    } else {
      assert xs + [x] == [xs[0]] + (xs[1..] + [x]) && xs == [xs[0]] + xs[1..];
      PresentSnoc(xs[1..], x);
      PresentCons(xs[0], xs[1..] + [x]);
      PresentCons(xs[0], xs[1..]);
    }
  }

  /** Adding a set that was absent and then removing it, whole or by its values, restores the list. */
  lemma AddThenRemove(tables: seq<Table>, name: string, rtype: string, values: seq<string>, ttl: Option<nat>, replace: bool, drop: seq<string>)
    requires Proper(name, rtype, values, ttl) && FirstMatch(tables, name, rtype) == |tables|
    requires drop == [] || drop == values
    ensures AddSpec(tables, name, rtype, values, ttl, replace) == Ok((Created, tables + [NewTable(name, rtype, values, ttl)]))
    ensures RemoveSpec(tables + [NewTable(name, rtype, values, ttl)], name, Some(rtype), drop) == tables
  {
    var t := NewTable(name, rtype, values, ttl);
    NewTableGoes(name, rtype, values, ttl, drop);
    OutcomesSnoc(tables, t, name, Some(rtype), drop);
    PresentSnoc(Outcomes(tables, name, Some(rtype), drop), None);
    PresentAll(Outcomes(tables, name, Some(rtype), drop));
  }

  lemma NewTableGoes(name: string, rtype: string, values: seq<string>, ttl: Option<nat>, drop: seq<string>)
    requires Proper(name, rtype, values, ttl) && (drop == [] || drop == values)
    ensures RemoveFrom(NewTable(name, rtype, values, ttl), name, Some(rtype), drop).None?
  {
    NewTableHolds(name, rtype, values, ttl, true);
    NothingKept(values);
  }

  lemma OutcomesSnoc(tables: seq<Table>, t: Table, name: string, rtype: Option<string>, drop: seq<string>)
    ensures Outcomes(tables + [t], name, rtype, drop) == Outcomes(tables, name, rtype, drop) + [RemoveFrom(t, name, rtype, drop)]
  {
  }

  lemma NothingKept(values: seq<string>)
    ensures Kept(values, values) == []
  {
    if Kept(values, values) != [] { assert Kept(values, values)[0] in Kept(values, values); }
  }
}
