/** Edits to the record sets of a config file, each proved against an edit of the list it holds. */
module Editors {
  import opened RecordTables

  datatype Change = Created | Extended | Replaced | Removed | Unchanged

  datatype EditError = UnknownType | NoValues | InvalidValue | RecordsNotTables | ValuesNotArray

  datatype Result<+T> = Ok(value: T) | Err(error: EditError)

  /** `[[zone.records]]`: not there yet, there as something else, or a list of tables. */
  datatype Document = NoRecords | NotTables | Tables(tables: seq<Table>)

  // --------------------------------------------------------------------- add

  function MissingFrom(values: seq<string>, current: seq<string>): (r: seq<string>)
    ensures r == [] <==> forall v | v in values :: v in current
    ensures forall v | v in r :: v in values && v !in current
    ensures forall v | v in values :: v in current || v in r
  {
    if values == [] then []
    else MissingFrom(values[..|values| - 1], current) + if values[|values| - 1] in current then [] else [values[|values| - 1]]
  }

  /** The matching table after the edit, and what the edit did. */
  function AddTo(t: Table, values: seq<string>, ttl: Option<nat>, replace: bool): (Change, Table)
    requires !t.values.NotArray?
  {
    var missing := MissingFrom(values, ValuesOf(t));
    var rettl := ttl.Some? && TtlOf(t) != ttl;
    if replace then
      if ValuesOf(t) == values && TtlOf(t) == ttl then (Unchanged, WithArray(t))
      else (Replaced, SetTtl(t.(values := Array(BuildArray(values))), ttl))
    else if missing == [] && !rettl then (Unchanged, WithArray(t))
    else
      var extended := t.(values := Array(ElementsOf(t) + BuildArray(missing)));
      (Extended, if rettl then SetTtl(extended, ttl) else extended)
  }

  function NewTable(name: string, rtype: string, values: seq<string>, ttl: Option<nat>): Table {
    SetTtl(Table(Some(name), Some(rtype), NoTtl, Array(BuildArray(values)), 0), ttl)
  }

  /** The first table of the set, or the number of tables when there is none. */
  function FirstMatch(tables: seq<Table>, name: string, rtype: string): (i: nat)
    ensures i <= |tables|
    ensures i < |tables| ==> Matches(tables[i], name, rtype)
    ensures forall k | 0 <= k < i :: !Matches(tables[k], name, rtype)
  {
    if tables == [] then 0
    else if Matches(tables[0], name, rtype) then 0
    else 1 + FirstMatch(tables[1..], name, rtype)
  }

  /** `add` on the list, with name and type already normalised. */
  function AddSpec(tables: seq<Table>, name: string, rtype: string, values: seq<string>, ttl: Option<nat>, replace: bool)
    : Result<(Change, seq<Table>)>
  {
    var i := FirstMatch(tables, name, rtype);
    if i == |tables| then Ok((Created, tables + [NewTable(name, rtype, values, ttl)]))
    else if tables[i].values.NotArray? then Err(ValuesNotArray)
    else
      var (change, t) := AddTo(tables[i], values, ttl, replace);
      Ok((change, tables[i := t]))
  }

  // ------------------------------------------------------------------ remove

  /** Which tables a removal is about: the set, or every type at the name. */
  predicate Wanted(t: Table, name: string, rtype: Option<string>) {
    match rtype
    case Some(ty) => Matches(t, name, ty)
    case None => NameOf(t) == name
  }

  function Kept(values: seq<string>, drop: seq<string>): (r: seq<string>)
    ensures |r| <= |values|
    ensures forall v :: v in r <==> v in values && v !in drop
    ensures |r| == |values| <==> r == values
    ensures |r| == |values| <==> forall v | v in values :: v !in drop
  {
    if values == [] then []
    else
      var last := values[|values| - 1];
      assert values == values[..|values| - 1] + [last];
      Kept(values[..|values| - 1], drop) + if last in drop then [] else [last]
  }

  /** One table after a removal: gone, or what is left of it. */
  function RemoveFrom(t: Table, name: string, rtype: Option<string>, drop: seq<string>): (r: Option<Table>)
    ensures !Wanted(t, name, rtype) ==> r == Some(t)
  {
    if !Wanted(t, name, rtype) then Some(t)
    else if drop == [] then None
    else if t.values.NotArray? then Some(t)
    else
      var kept := Kept(ValuesOf(t), drop);
      if |kept| == |ValuesOf(t)| then Some(WithArray(t))
      else if kept == [] then None
      else Some(t.(values := Array(BuildArray(kept))))
  }

  predicate Stuck(t: Table, name: string, rtype: Option<string>, drop: seq<string>) {
    Wanted(t, name, rtype) && drop != [] && t.values.NotArray?
  }

  /** What becomes of each table. */
  function Outcomes(tables: seq<Table>, name: string, rtype: Option<string>, drop: seq<string>): (r: seq<Option<Table>>)
    ensures |r| == |tables| && forall i | 0 <= i < |r| :: r[i] == RemoveFrom(tables[i], name, rtype, drop)
  {
    seq(|tables|, i requires 0 <= i < |tables| => RemoveFrom(tables[i], name, rtype, drop))
  }

  /** Those that are left, in their order. */
  function Present<T>(xs: seq<Option<T>>): (r: seq<T>) {
    if xs == [] then [] else (if xs[0].Some? then [xs[0].value] else []) + Present(xs[1..])
  }

  /** `remove` on the list: an order-preserving filter and map. */
  function RemoveSpec(tables: seq<Table>, name: string, rtype: Option<string>, drop: seq<string>): seq<Table> {
    Present(Outcomes(tables, name, rtype, drop))
  }

  // ------------------------------------------- collecting, and deleting from the back

  /** The indices below `n` of what is to go, ascending. */
  ghost predicate Collected<T>(outcomes: seq<Option<T>>, n: nat, indices: seq<nat>)
    requires n <= |outcomes|
  {
    && (forall i, j | 0 <= i < j < |indices| :: indices[i] < indices[j])
    && (forall k | 0 <= k < |indices| :: indices[k] < n && outcomes[indices[k]].None?)
    && (forall i: nat | i < n && outcomes[i].None? :: i in indices)
  }

  /** The list already holds each survivor where it stood. */
  ghost predicate InPlace<T>(outcomes: seq<Option<T>>, now: seq<T>) {
    |outcomes| == |now| && forall i | 0 <= i < |now| && outcomes[i].Some? :: now[i] == outcomes[i].value
  }

  /** A stretch with nothing to drop survives whole. */
  lemma {:induction false} SurviveWhole<T>(outcomes: seq<Option<T>>, now: seq<T>, lo: nat, hi: nat)
    requires InPlace(outcomes, now) && lo <= hi <= |now|
    requires forall i | lo <= i < hi :: outcomes[i].Some?
    ensures Present(outcomes[lo..]) == now[lo..hi] + Present(outcomes[hi..])
    decreases hi - lo
  {
    if lo < hi {
      SurviveWhole(outcomes, now, lo + 1, hi);
      assert outcomes[lo..][1..] == outcomes[lo + 1..];
      assert now[lo..hi] == [now[lo]] + now[lo + 1..hi];
    } else {
      assert now[lo..hi] == [];
    }
  }

  /** Where the deleting loop has got to: everything from `done` on is as it should be. */
  ghost predicate DeletedFrom<T>(outcomes: seq<Option<T>>, now: seq<T>, done: nat, list: seq<T>) {
    done <= |now| && InPlace(outcomes, now) && list == now[..done] + Present(outcomes[done..])
  }

  lemma DeleteOne<T>(outcomes: seq<Option<T>>, now: seq<T>, done: nat, list: seq<T>, idx: nat)
    requires DeletedFrom(outcomes, now, done, list) && idx < done && outcomes[idx].None?
    requires forall i | idx < i < done :: outcomes[i].Some?
    ensures idx < |list| && DeletedFrom(outcomes, now, idx, list[..idx] + list[idx + 1..])
  {
    SurviveWhole(outcomes, now, idx + 1, done);
    assert outcomes[idx..][1..] == outcomes[idx + 1..];
    WithoutOne(now, Present(outcomes[done..]), done, idx);
  }

  lemma WithoutOne<T>(now: seq<T>, tail: seq<T>, done: nat, idx: nat)
    requires idx < done <= |now|
    ensures var list := now[..done] + tail; list[..idx] + list[idx + 1..] == now[..idx] + (now[idx + 1..done] + tail)
  {
  }

  lemma NoneBetween<T>(outcomes: seq<Option<T>>, indices: seq<nat>, k: nat, done: nat)
    requires Collected(outcomes, |outcomes|, indices) && k <= |indices|
    requires done == if k < |indices| then indices[k] else |outcomes|
    ensures forall i | (if k == 0 then -1 else indices[k - 1]) < i < done :: outcomes[i].Some?
  {
    forall i: nat | (if k == 0 then -1 else indices[k - 1]) < i < done ensures outcomes[i].Some? {
      assert i !in indices;
    }
  }

  /** From the back, so that each index still names its table. */
  method DeleteFromTheBack<T>(ghost outcomes: seq<Option<T>>, now: seq<T>, indices: seq<nat>) returns (list: seq<T>)
    requires InPlace(outcomes, now) && Collected(outcomes, |outcomes|, indices)
    ensures list == Present(outcomes)
  {
    list := now;
    ghost var done := |now|;
    assert now[..|now|] + [] == now;
    for k := |indices| downto 0
      invariant done == if k < |indices| then indices[k] else |outcomes|
      invariant DeletedFrom(outcomes, now, done, list)
    {
      var idx := indices[k];
      NoneBetween(outcomes, indices, k + 1, done);
      DeleteOne(outcomes, now, done, list, idx);
      list := list[..idx] + list[idx + 1..];
      done := idx;
    }
    NoneBetween(outcomes, indices, 0, done);
    SurviveWhole(outcomes, now, 0, done);
    assert outcomes[0..] == outcomes && now[0..done] == now[..done];
  }

  // --------------------------------------------------------------- the editor

  /** What happens to a table the collecting loop passes; those to be dropped keep their values until then. */
  function Edited(t: Table, name: string, rtype: Option<string>, drop: seq<string>): Table {
    match RemoveFrom(t, name, rtype, drop)
    case Some(t') => t'
    case None => if drop == [] || t.values.NotArray? then t else WithArray(t)
  }

  /** The loop has passed `n` tables and not the rest. */
  ghost predicate PartWay(was: seq<Table>, now: seq<Table>, n: nat, name: string, rtype: Option<string>, drop: seq<string>) {
    && |now| == |was| && n <= |was|
    && (forall i | 0 <= i < n :: now[i] == Edited(was[i], name, rtype, drop))
    && (forall i | n <= i < |was| :: now[i] == was[i])
  }

  /** The loop got as far as the first stuck table, and no further. */
  ghost predicate StuckAt(was: seq<Table>, now: seq<Table>, n: nat, name: string, rtype: Option<string>, drop: seq<string>) {
    && PartWay(was, now, n, name, rtype, drop) && n < |was| && Stuck(was[n], name, rtype, drop)
    && forall i | 0 <= i < n :: !Stuck(was[i], name, rtype, drop)
  }

  ghost predicate GotStuck(was: seq<Table>, now: seq<Table>, name: string, rtype: Option<string>, drop: seq<string>) {
    exists n :: StuckAt(was, now, n, name, rtype, drop)
  }

  predicate Touched(t: Table, name: string, rtype: Option<string>, drop: seq<string>) {
    Wanted(t, name, rtype) && (drop == [] || |Kept(ValuesOf(t), drop)| != |ValuesOf(t)|)
  }

  ghost predicate SomeStuck(tables: seq<Table>, n: nat, name: string, rtype: Option<string>, drop: seq<string>)
    requires n <= |tables|
  {
    exists i | 0 <= i < n :: Stuck(tables[i], name, rtype, drop)
  }

  ghost predicate SomeTouched(tables: seq<Table>, n: nat, name: string, rtype: Option<string>, drop: seq<string>)
    requires n <= |tables|
  {
    exists i | 0 <= i < n :: Touched(tables[i], name, rtype, drop)
  }

  // ----------------------------------------------------- the collecting loop

  /** What the loop does with one table: what it leaves in its place, and whether it is to go, was touched, or is stuck. */
  datatype Fate = Fate(edited: Table, goes: bool, touched: bool, stuck: bool)

  function FateOf(t: Table, name: string, rtype: Option<string>, drop: seq<string>): Fate {
    Fate(Edited(t, name, rtype, drop), RemoveFrom(t, name, rtype, drop).None?, Touched(t, name, rtype, drop), Stuck(t, name, rtype, drop))
  }

  function Fates(tables: seq<Table>, name: string, rtype: Option<string>, drop: seq<string>): (r: seq<Fate>)
    ensures |r| == |tables|
  {
    if tables == [] then [] else Fates(tables[..|tables| - 1], name, rtype, drop) + [FateOf(tables[|tables| - 1], name, rtype, drop)]
  }

  lemma {:induction false} FateAt(tables: seq<Table>, name: string, rtype: Option<string>, drop: seq<string>, i: nat)
    requires i < |tables|
    ensures Fates(tables, name, rtype, drop)[i] == FateOf(tables[i], name, rtype, drop)
  {
    if i < |tables| - 1 { FateAt(tables[..|tables| - 1], name, rtype, drop, i); }
  }

  /** The loop has passed `n` tables, none of them stuck. */
  ghost predicate Passed(was: seq<Table>, now: seq<Table>, fates: seq<Fate>, n: nat, changed: bool, indices: seq<nat>) {
    && |now| == |was| == |fates| && n <= |was|
    && (forall i | 0 <= i < n :: now[i] == fates[i].edited && !fates[i].stuck)
    && (forall i | n <= i < |was| :: now[i] == was[i])
    && (changed <==> exists i :: 0 <= i < n && fates[i].touched)
    && (forall i, j | 0 <= i < j < |indices| :: indices[i] < indices[j])
    && (forall i: nat :: i in indices <==> i < n && fates[i].goes)
  }

  lemma PassOne(was: seq<Table>, now: seq<Table>, fates: seq<Fate>, n: nat, changed: bool, indices: seq<nat>)
    requires Passed(was, now, fates, n, changed, indices) && n < |was| && !fates[n].stuck
    ensures now[n] == was[n]
    ensures Passed(was, now[n := fates[n].edited], fates, n + 1, changed || fates[n].touched, if fates[n].goes then indices + [n] else indices)
  {
    forall i | 0 <= i < |indices| ensures indices[i] < n { assert indices[i] in indices; }
  }

  /** What that comes to, when nothing was stuck and when something was. */
  lemma PassedAll(was: seq<Table>, now: seq<Table>, name: string, rtype: Option<string>, drop: seq<string>, changed: bool, indices: seq<nat>)
    requires Passed(was, now, Fates(was, name, rtype, drop), |was|, changed, indices)
    ensures !SomeStuck(was, |was|, name, rtype, drop) && (changed <==> SomeTouched(was, |was|, name, rtype, drop))
    ensures InPlace(Outcomes(was, name, rtype, drop), now) && Collected(Outcomes(was, name, rtype, drop), |was|, indices)
  {
    forall i: nat | i < |was| ensures Fates(was, name, rtype, drop)[i] == FateOf(was[i], name, rtype, drop) {
      FateAt(was, name, rtype, drop, i);
    }
    forall k | 0 <= k < |indices| ensures indices[k] < |was| && Fates(was, name, rtype, drop)[indices[k]].goes {
      assert indices[k] in indices;
    }
  }

  lemma PassedSome(was: seq<Table>, now: seq<Table>, n: nat, name: string, rtype: Option<string>, drop: seq<string>,
                   changed: bool, indices: seq<nat>)
    requires Passed(was, now, Fates(was, name, rtype, drop), n, changed, indices) && n < |was|
    requires Fates(was, name, rtype, drop)[n].stuck
    ensures SomeStuck(was, |was|, name, rtype, drop) && GotStuck(was, now, name, rtype, drop)
  {
    forall i: nat | i < |was| ensures Fates(was, name, rtype, drop)[i] == FateOf(was[i], name, rtype, drop) {
      FateAt(was, name, rtype, drop, i);
    }
    assert StuckAt(was, now, n, name, rtype, drop);
  }

  /** How the RDATA and type parsers, which are not part of this model, read what an operator typed. */
  datatype Parsers = Parsers(canonicalType: string -> Option<string>, validValue: (string, string, string) -> bool)

  class ConfigEditor {
    const parsers: Parsers
    var doc: Document

    constructor (parsers: Parsers, doc: Document)
      ensures this.parsers == parsers && this.doc == doc
    {
      this.parsers := parsers;
      this.doc := doc;
    }

    method Find(tables: seq<Table>, name: string, rtype: string) returns (i: nat)
      ensures i == FirstMatch(tables, name, rtype)
    {
      i := 0;
      assert tables[0..] == tables;
      while i < |tables| && !Matches(tables[i], name, rtype)
        invariant i <= |tables| && i + FirstMatch(tables[i..], name, rtype) == FirstMatch(tables, name, rtype)
      {
        assert tables[i..][1..] == tables[i + 1..];
        i := i + 1;
      }
    }

    /** The list `records_mut` gives, which it puts there when there is none. */
    method RecordsMut() returns (ok: bool)
      modifies this`doc
      ensures ok <==> !old(doc).NotTables?
      ensures doc == if old(doc).NoRecords? then Tables([]) else old(doc)
    {
      if doc.NoRecords? { doc := Tables([]); }
      ok := doc.Tables?;
    }

    method Add(name: string, rtype: string, values: seq<string>, ttl: Option<nat>, replace: bool) returns (r: Result<Change>)
      modifies this`doc
      ensures parsers.canonicalType(rtype).None? ==> r == Err(UnknownType) && doc == old(doc)
      ensures parsers.canonicalType(rtype).Some? ==>
                var n, ty := NormaliseName(name), parsers.canonicalType(rtype).value;
                if values == [] then r == Err(NoValues) && doc == old(doc)
                else if exists v :: v in values && !parsers.validValue(ty, n, v) then r == Err(InvalidValue) && doc == old(doc)
                else if old(doc).NotTables? then r == Err(RecordsNotTables) && doc == old(doc)
                else
                  var tables := if old(doc).NoRecords? then [] else old(doc).tables;
                  match AddSpec(tables, n, ty, values, ttl, replace)
                  case Err(e) => r == Err(e) && doc == Tables(tables)
                  case Ok((change, tables')) => r == Ok(change) && doc == Tables(tables')
    {
      var canonical := parsers.canonicalType(rtype);
      if canonical.None? { return Err(UnknownType); }
      var ty, n := canonical.value, NormaliseName(name);
      if values == [] { return Err(NoValues); }
      for k := 0 to |values|
        invariant forall j | 0 <= j < k :: parsers.validValue(ty, n, values[j])
      {
        if !parsers.validValue(ty, n, values[k]) { return Err(InvalidValue); }
      }
      var ok := RecordsMut();
      if !ok { return Err(RecordsNotTables); }
      var i := Find(doc.tables, n, ty);
      if i == |doc.tables| {
        doc := Tables(doc.tables + [NewTable(n, ty, values, ttl)]);
        return Ok(Created);
      }
      var t := doc.tables[i];
      if t.values.NotArray? { return Err(ValuesNotArray); }
      var (change, t') := AddTo(t, values, ttl, replace);
      doc := Tables(doc.tables[i := t']);
      return Ok(change);
    }

    method Remove(name: string, rtype: Option<string>, drop: seq<string>) returns (r: Result<Change>)
      modifies this`doc
      ensures rtype.Some? && parsers.canonicalType(rtype.value).None? ==> r == Err(UnknownType) && doc == old(doc)
      ensures rtype.None? || parsers.canonicalType(rtype.value).Some? ==>
                var n, ty := NormaliseName(name), if rtype.Some? then parsers.canonicalType(rtype.value) else None;
                if !old(doc).Tables? then r == Ok(Unchanged) && doc == old(doc)
                else
                  var was := old(doc).tables;
                  if SomeStuck(was, |was|, n, ty, drop)
                  then r == Err(ValuesNotArray) && doc.Tables? && GotStuck(was, doc.tables, n, ty, drop)
                  else
                    && doc == Tables(RemoveSpec(was, n, ty, drop))
                    && r == Ok(if SomeTouched(was, |was|, n, ty, drop) then Removed else Unchanged)
    {
      var n := NormaliseName(name);
      var ty := if rtype.Some? then parsers.canonicalType(rtype.value) else None;
      if rtype.Some? && ty.None? { return Err(UnknownType); }
      if !doc.Tables? { return Ok(Unchanged); }
      ghost var was := doc.tables;
      var changed, indices, ok, reached := Collect(n, ty, drop);
      if !ok {
        PassedSome(was, doc.tables, reached, n, ty, drop, changed, indices);
        return Err(ValuesNotArray);
      }
      PassedAll(was, doc.tables, n, ty, drop, changed, indices);
      var tables := DeleteFromTheBack(Outcomes(was, n, ty, drop), doc.tables, indices);
      doc := Tables(tables);
      return Ok(if changed then Removed else Unchanged);
    }

    /** The collecting loop: edits the tables that stay and lists the ones that go; `reached` is how far it got. */
    method Collect(n: string, ty: Option<string>, drop: seq<string>)
      returns (changed: bool, indices: seq<nat>, ok: bool, ghost reached: nat)
      requires doc.Tables?
      modifies this`doc
      ensures doc.Tables?
      ensures Passed(old(doc).tables, doc.tables, Fates(old(doc).tables, n, ty, drop), reached, changed, indices)
      ensures if ok then reached == |old(doc).tables|
              else reached < |old(doc).tables| && Fates(old(doc).tables, n, ty, drop)[reached].stuck
    {
      ghost var was := doc.tables;
      ghost var fates := Fates(was, n, ty, drop);
      changed, indices, reached := false, [], 0;
      for idx := 0 to |doc.tables|
        invariant doc.Tables? && reached == idx && Passed(was, doc.tables, fates, idx, changed, indices)
      {
        var table := doc.tables[idx];
        FateAt(was, n, ty, drop, idx);
        if Stuck(table, n, ty, drop) { return changed, indices, false, idx; }
        PassOne(was, doc.tables, fates, idx, changed, indices);
        var table', goes, touched := Consider(table, n, ty, drop);
        doc := Tables(doc.tables[idx := table']);
        if goes { indices := indices + [idx]; }
        changed, reached := changed || touched, idx + 1;
      }
      ok := true;
    }

    /** One table of the loop. */
    static method Consider(table: Table, n: string, ty: Option<string>, drop: seq<string>)
      returns (table': Table, goes: bool, touched: bool)
      requires !Stuck(table, n, ty, drop)
      ensures table' == Edited(table, n, ty, drop)
      ensures goes <==> RemoveFrom(table, n, ty, drop).None?
      ensures touched <==> Touched(table, n, ty, drop)
    {
      table', goes, touched := table, false, false;
      if !Wanted(table, n, ty) { return; }
      if drop == [] {
        goes, touched := true, true;
        return;
      }
      table' := WithArray(table);
      var before := ValuesOf(table);
      var kept := Kept(before, drop);
      if |kept| != |before| {
        touched := true;
        if kept == [] { goes := true; } else { table' := table.(values := Array(BuildArray(kept))); }
      }
    }
  }
}
