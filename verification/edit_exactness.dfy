/** What an edit leaves, table by table and value by value, said without the edit. */
module EditExactness {
  import opened RecordTables
  import opened Editors
  import opened EditLaws

  // ------------------------------------------------------- lists with places gone

  /** The places below `n` that are not gone, in order. */
  ghost predicate Stay(at: seq<nat>, n: nat, gone: set<nat>) {
    && (forall i, j | 0 <= i < j < |at| :: at[i] < at[j])
    && forall k: nat :: k in at <==> k < n && k !in gone
  }

  lemma StayNext(at: seq<nat>, n: nat, gone: set<nat>, gone': set<nat>)
    requires Stay(at, n, gone) && (forall k: nat | k < n :: k in gone <==> k in gone')
    ensures Stay(if n in gone' then at else at + [n], n + 1, gone')
  {
    forall i | 0 <= i < |at| ensures at[i] < n { assert at[i] in at; }
  }

  /** `now` is `was` at the places that stay. */
  ghost predicate Sifted<T(!new)>(was: seq<T>, now: seq<T>, at: seq<nat>, gone: set<nat>) {
    Stay(at, |was|, gone) && |now| == |at| && forall i | 0 <= i < |at| :: at[i] < |was| && now[i] == was[at[i]]
  }

  lemma SiftedNext<T(!new)>(was: seq<T>, now: seq<T>, at: seq<nat>, gone: set<nat>, gone': set<nat>, x: T)
    requires Sifted(was, now, at, gone) && (forall k: nat | k < |was| :: k in gone <==> k in gone')
    ensures |was| in gone' ==> Sifted(was + [x], now, at, gone')
    ensures |was| !in gone' ==> Sifted(was + [x], now + [x], at + [|was|], gone')
  {
    StayNext(at, |was|, gone, gone');
  }

  ghost function Dropped(was: seq<string>, drop: seq<string>): set<nat> {
    set k: nat | k < |was| && was[k] in drop
  }

  /** The values that are not dropped, each as often as it was there, in the order they had. */
  ghost predicate Less(was: seq<string>, drop: seq<string>, now: seq<string>) {
    exists at: seq<nat> :: Sifted(was, now, at, Dropped(was, drop))
  }

  lemma LessNext(was: seq<string>, drop: seq<string>, now: seq<string>, x: string)
    requires Less(was, drop, now)
    ensures Less(was + [x], drop, if x in drop then now else now + [x])
  {
    var at: seq<nat> :| Sifted(was, now, at, Dropped(was, drop));
    SiftedNext(was, now, at, Dropped(was, drop), Dropped(was + [x], drop), x);
  }

  lemma KeptNext(was: seq<string>, drop: seq<string>, x: string)
    ensures Kept(was + [x], drop) == if x in drop then Kept(was, drop) else Kept(was, drop) + [x]
  {
    assert (was + [x])[..|was|] == was;
  }

  lemma {:induction false} KeptIsLess(was: seq<string>, drop: seq<string>)
    ensures Less(was, drop, Kept(was, drop))
  {
    if was == [] {
      assert Sifted(was, [], [], Dropped(was, drop));
    } else {
      var init, last := was[..|was| - 1], was[|was| - 1];
      assert was == init + [last];
      KeptIsLess(init, drop);
      KeptNext(init, drop, last);
      LessNext(init, drop, Kept(init, drop), last);
    }
  }

  ghost function Nones<T>(outcomes: seq<Option<T>>): set<nat> {
    set k: nat | k < |outcomes| && outcomes[k].None?
  }

  function Somes<T>(xs: seq<T>): (r: seq<Option<T>>)
    ensures |r| == |xs| && forall i | 0 <= i < |r| :: r[i] == Some(xs[i])
  {
    seq(|xs|, i requires 0 <= i < |xs| => Some(xs[i]))
  }

  lemma PresentNext<T>(outcomes: seq<Option<T>>, x: Option<T>)
    ensures Somes(Present(outcomes + [x])) == if x.None? then Somes(Present(outcomes)) else Somes(Present(outcomes)) + [x]
  {
    PresentSnoc(outcomes, x);
  }

  lemma NonesNext<T>(outcomes: seq<Option<T>>, x: Option<T>)
    ensures forall k: nat | k < |outcomes| :: k in Nones(outcomes) <==> k in Nones(outcomes + [x])
    ensures |outcomes| in Nones(outcomes + [x]) <==> x.None?
  {
  }

  lemma {:induction false} PresentAt<T(!new)>(outcomes: seq<Option<T>>) returns (at: seq<nat>)
    ensures Sifted(outcomes, Somes(Present(outcomes)), at, Nones(outcomes))
  {
    if outcomes == [] {
      at := [];
    } else {
      var init, last := outcomes[..|outcomes| - 1], outcomes[|outcomes| - 1];
      assert outcomes == init + [last];
      var before := PresentAt(init);
      NonesNext(init, last);
      SiftedNext(init, Somes(Present(init)), before, Nones(init), Nones(init + [last]), last);
      PresentNext(init, last);
      at := if last.None? then before else before + [|init|];
    }
  }

  // ------------------------------------------------------------------ removal

  /** A wanted table goes whole when no values are named, and else when it has values and all of them are named. */
  predicate Goes(t: Table, name: string, rtype: Option<string>, drop: seq<string>) {
    Wanted(t, name, rtype) && (drop == [] || (ValuesOf(t) != [] && forall v | v in ValuesOf(t) :: v in drop))
  }

  /** What stays of a table: all of it, or, of one that is wanted, all but the dropped values. */
  ghost predicate Remains(t: Table, t': Table, name: string, rtype: Option<string>, drop: seq<string>) {
    if !Wanted(t, name, rtype) then t' == t
    else
      && t'.name == t.name && t'.rtype == t.rtype && t'.ttl == t.ttl && t'.rest == t.rest
      && t'.values.Array? && Less(ValuesOf(t), drop, ValuesOf(t'))
      && if forall v | v in ValuesOf(t) :: v !in drop
         then t'.values.elements == if t.values.Array? then t.values.elements else []
         else forall e | e in t'.values.elements :: e.Some?
  }

  lemma NothingLeft(was: seq<string>, drop: seq<string>)
    ensures Kept(was, drop) == [] <==> forall v | v in was :: v in drop
  {
    var kept := Kept(was, drop);
    if kept == [] {
      forall v | v in was ensures v in drop { assert v !in kept; }
    } else {
      assert kept[0] in kept;
    }
  }

  lemma OneTable(t: Table, name: string, rtype: Option<string>, drop: seq<string>)
    requires !Stuck(t, name, rtype, drop)
    ensures RemoveFrom(t, name, rtype, drop).None? <==> Goes(t, name, rtype, drop)
    ensures !Goes(t, name, rtype, drop) ==> Remains(t, RemoveFrom(t, name, rtype, drop).value, name, rtype, drop)
  {
    KeptIsLess(ValuesOf(t), drop);
    StringsOfBuilt(Kept(ValuesOf(t), drop));
    NothingLeft(ValuesOf(t), drop);
  }

  ghost function Gone(tables: seq<Table>, name: string, rtype: Option<string>, drop: seq<string>): set<nat> {
    set k: nat | k < |tables| && Goes(tables[k], name, rtype, drop)
  }

  ghost predicate Removed(tables: seq<Table>, now: seq<Table>, at: seq<nat>, name: string, rtype: Option<string>, drop: seq<string>) {
    && Stay(at, |tables|, Gone(tables, name, rtype, drop))
    && |now| == |at| && forall i | 0 <= i < |now| :: at[i] < |tables| && Remains(tables[at[i]], now[i], name, rtype, drop)
  }

  /** Every removal that meets no stuck table: which tables go, and of those that stay what each of them keeps, in the same order. */
  lemma RemovalIsExact(tables: seq<Table>, name: string, rtype: Option<string>, drop: seq<string>)
    requires forall t | t in tables && Wanted(t, name, rtype) && drop != [] :: !t.values.NotArray?
    ensures exists at: seq<nat> :: Removed(tables, RemoveSpec(tables, name, rtype, drop), at, name, rtype, drop)
  {
    var outcomes, now := Outcomes(tables, name, rtype, drop), RemoveSpec(tables, name, rtype, drop);
    var at := PresentAt(outcomes);
    forall k | 0 <= k < |tables|
      ensures outcomes[k].None? <==> Goes(tables[k], name, rtype, drop)
      ensures outcomes[k].Some? ==> Remains(tables[k], outcomes[k].value, name, rtype, drop)
    {
      OneTable(tables[k], name, rtype, drop);
    }
    assert Nones(outcomes) == Gone(tables, name, rtype, drop);
    assert Removed(tables, now, at, name, rtype, drop);
  }

  /** A table a removal passed before it met a stuck one: as it stays, or, of one that was to go, with an array if it had no values. */
  ghost predicate LeftBehind(t: Table, t': Table, name: string, rtype: Option<string>, drop: seq<string>) {
    if !Goes(t, name, rtype, drop) then Remains(t, t', name, rtype, drop)
    else t' == if t.values.Absent? then t.(values := Array([])) else t
  }

  /** A removal that meets a stuck table has edited the tables before the first of them, and no other; it drops none. */
  lemma StuckIsExact(was: seq<Table>, now: seq<Table>, n: nat, name: string, rtype: Option<string>, drop: seq<string>)
    requires StuckAt(was, now, n, name, rtype, drop)
    ensures n < |was| == |now| && Wanted(was[n], name, rtype) && drop != [] && was[n].values.NotArray?
    ensures forall i | 0 <= i < n :: LeftBehind(was[i], now[i], name, rtype, drop)
    ensures forall i | n <= i < |was| :: now[i] == was[i]
  {
    forall i | 0 <= i < n ensures LeftBehind(was[i], now[i], name, rtype, drop) {
      OneTable(was[i], name, rtype, drop);
      EditedIsLeft(was[i], name, rtype, drop);
    }
  }

  lemma EditedIsLeft(t: Table, name: string, rtype: Option<string>, drop: seq<string>)
    requires !Stuck(t, name, rtype, drop) && drop != []
    requires RemoveFrom(t, name, rtype, drop).None? <==> Goes(t, name, rtype, drop)
    ensures !Goes(t, name, rtype, drop) ==> Edited(t, name, rtype, drop) == RemoveFrom(t, name, rtype, drop).value
    ensures Goes(t, name, rtype, drop) ==> Edited(t, name, rtype, drop) == if t.values.Absent? then t.(values := Array([])) else t
  {
  }

  // ----------------------------------------------------------------- addition

  lemma {:induction false} MissingIsKept(values: seq<string>, current: seq<string>)
    ensures MissingFrom(values, current) == Kept(values, current)
  {
    if values != [] { MissingIsKept(values[..|values| - 1], current); }
  }

  /** Nothing in the array but these strings. */
  predicate Just(elements: seq<Option<string>>, values: seq<string>) {
    |elements| == |values| && forall i | 0 <= i < |values| :: elements[i] == Some(values[i])
  }

  /** The elements, and after them the values that were not there: each as often as it was asked for, in the order it was. */
  ghost predicate MoreBy(elements: seq<Option<string>>, elements': seq<Option<string>>, values: seq<string>, current: seq<string>) {
    elements <= elements' && exists missing :: Less(values, current, missing) && Just(elements'[|elements|..], missing)
  }

  predicate SameTtl(t: Table, ttl: Option<nat>) {
    match ttl
    case Some(seconds) => t.ttl == Integer(seconds) && seconds <= 0xffff_ffff
    case None => !t.ttl.Integer? || t.ttl.value < 0 || t.ttl.value > 0xffff_ffff
  }

  /** What was there of the set already. */
  ghost predicate NothingToDo(t: Table, values: seq<string>, ttl: Option<nat>, replace: bool) {
    if replace then ValuesOf(t) == values && SameTtl(t, ttl)
    else (forall v | v in values :: v in ValuesOf(t)) && (ttl.Some? ==> SameTtl(t, ttl))
  }

  /** The set that was there, as an addition or a replacement leaves it. */
  ghost predicate Amended(t: Table, t': Table, change: Change, values: seq<string>, ttl: Option<nat>, replace: bool) {
    && t'.name == t.name && t'.rtype == t.rtype && t'.rest == t.rest && t'.values.Array?
    && var elements := if t.values.Array? then t.values.elements else [];
       if NothingToDo(t, values, ttl, replace) then change == Unchanged && t'.ttl == t.ttl && t'.values.elements == elements
       else if replace then
         && change == Replaced && Just(t'.values.elements, values)
         && t'.ttl == if ttl.Some? then Integer(ttl.value) else NoTtl
       else
         && change == Extended
         && MoreBy(elements, t'.values.elements, values, ValuesOf(t))
         && t'.ttl == if ttl.Some? then Integer(ttl.value) else t.ttl
  }

  /** The set that was not there. */
  predicate Fresh(t: Table, name: string, rtype: string, values: seq<string>, ttl: Option<nat>) {
    && t.name == Some(name) && t.rtype == Some(rtype) && t.rest == 0
    && t.values.Array? && Just(t.values.elements, values)
    && t.ttl == if ttl.Some? then Integer(ttl.value) else NoTtl
  }

  lemma SameTtlIff(t: Table, ttl: Option<nat>)
    ensures SameTtl(t, ttl) <==> TtlOf(t) == ttl
  {
  }

  lemma ReplaceAmends(t: Table, values: seq<string>, ttl: Option<nat>)
    requires !t.values.NotArray?
    ensures Amended(t, AddTo(t, values, ttl, true).1, AddTo(t, values, ttl, true).0, values, ttl, true)
  {
    SameTtlIff(t, ttl);
  }

  lemma Extends(t: Table, values: seq<string>)
    requires !t.values.NotArray?
    ensures MoreBy(ElementsOf(t), ElementsOf(t) + BuildArray(MissingFrom(values, ValuesOf(t))), values, ValuesOf(t))
  {
    var missing := MissingFrom(values, ValuesOf(t));
    MissingIsKept(values, ValuesOf(t));
    KeptIsLess(values, ValuesOf(t));
    assert (ElementsOf(t) + BuildArray(missing))[|ElementsOf(t)|..] == BuildArray(missing);
  }

  lemma ExtendAmends(t: Table, values: seq<string>, ttl: Option<nat>)
    requires !t.values.NotArray?
    ensures Amended(t, AddTo(t, values, ttl, false).1, AddTo(t, values, ttl, false).0, values, ttl, false)
  {
    SameTtlIff(t, ttl);
    Extends(t, values);
    assert MissingFrom(values, ValuesOf(t)) == [] <==> forall v | v in values :: v in ValuesOf(t);
  }

  lemma AddToAmends(t: Table, values: seq<string>, ttl: Option<nat>, replace: bool)
    requires !t.values.NotArray?
    ensures Amended(t, AddTo(t, values, ttl, replace).1, AddTo(t, values, ttl, replace).0, values, ttl, replace)
  {
    if replace { ReplaceAmends(t, values, ttl); } else { ExtendAmends(t, values, ttl); }
  }

  ghost predicate AmendedAt(tables: seq<Table>, now: seq<Table>, i: nat, change: Change, values: seq<string>, ttl: Option<nat>, replace: bool)
    requires i < |tables|
  {
    && |now| == |tables| && (forall k | 0 <= k < |tables| && k != i :: now[k] == tables[k])
    && Amended(tables[i], now[i], change, values, ttl, replace)
  }

  ghost predicate PutLast(tables: seq<Table>, now: seq<Table>, name: string, rtype: string, values: seq<string>, ttl: Option<nat>) {
    |now| == |tables| + 1 && now[..|tables|] == tables && Fresh(now[|tables|], name, rtype, values, ttl)
  }

  /** `i` is the first table of the set, or past the end when there is none. */
  ghost predicate IsFirst(tables: seq<Table>, name: string, rtype: string, i: nat) {
    i <= |tables| && (i < |tables| ==> Matches(tables[i], name, rtype)) && forall k | 0 <= k < i :: !Matches(tables[k], name, rtype)
  }

  lemma FirstIsFirst(tables: seq<Table>, name: string, rtype: string, i: nat)
    requires IsFirst(tables, name, rtype, i)
    ensures i == FirstMatch(tables, name, rtype)
  {
    var f := FirstMatch(tables, name, rtype);
    assert f <= i;
  }

  /**
    * The first table of the set is amended, or else one is put at the end; every other table stays as it is. It is refused
    * exactly when the table of the set has no array to add to.
    */
  lemma AdditionIsExact(tables: seq<Table>, name: string, rtype: string, values: seq<string>, ttl: Option<nat>, replace: bool, i: nat)
    requires IsFirst(tables, name, rtype, i)
    ensures match AddSpec(tables, name, rtype, values, ttl, replace)
            case Err(e) => e == ValuesNotArray && i < |tables| && tables[i].values.NotArray?
            case Ok((change, now)) =>
              if i < |tables| then !tables[i].values.NotArray? && AmendedAt(tables, now, i, change, values, ttl, replace)
              else change == Created && PutLast(tables, now, name, rtype, values, ttl)
  {
    FirstIsFirst(tables, name, rtype, i);
    if i == |tables| {
      PutsLast(tables, name, rtype, values, ttl);
    } else if !tables[i].values.NotArray? {
      AddToAmends(tables[i], values, ttl, replace);
      var (change, t) := AddTo(tables[i], values, ttl, replace);
      AmendsOne(tables, tables[i := t], t, i, change, values, ttl, replace);
    }
  }

  lemma AmendsOne(tables: seq<Table>, now: seq<Table>, t: Table, i: nat, change: Change, values: seq<string>, ttl: Option<nat>, replace: bool)
    requires i < |tables| && now == tables[i := t] && Amended(tables[i], t, change, values, ttl, replace)
    ensures AmendedAt(tables, now, i, change, values, ttl, replace)
  {
    assert now[i] == t;
  }

  lemma PutsLast(tables: seq<Table>, name: string, rtype: string, values: seq<string>, ttl: Option<nat>)
    ensures PutLast(tables, tables + [NewTable(name, rtype, values, ttl)], name, rtype, values, ttl)
  {
  }

  // ------------------------------------------------- which set an edit is about

  predicate Upper(c: char) {
    'A' <= c <= 'Z'
  }

  predicate SameLetter(a: char, b: char) {
    a == b || (Upper(a) && b as int == a as int + 32) || (Upper(b) && a as int == b as int + 32)
  }

  /** Equal but for the case of ASCII letters. */
  predicate SameText(a: string, b: string) {
    |a| == |b| && forall i | 0 <= i < |a| :: SameLetter(a[i], b[i])
  }

  predicate Blank(c: char) {
    c == ' ' || c == '\t' || c == '\n' || c as int == 11 || c as int == 12 || c == '\r'
  }

  /** The text with the blanks at its two ends off. */
  ghost predicate IsCore(s: string, core: string) {
    exists i, j | 0 <= i <= j <= |s| :: CoreAt(s, i, j) && core == s[i..j]
  }

  ghost predicate CoreAt(s: string, i: nat, j: nat)
    requires i <= j <= |s|
  {
    && (forall k | 0 <= k < i || j <= k < |s| :: Blank(s[k]))
    && (i < j ==> !Blank(s[i]) && !Blank(s[j - 1]))
  }

  lemma {:induction false} TrimStartIs(s: string) returns (i: nat)
    ensures i <= |s| && TrimStart(s) == s[i..] && forall k | 0 <= k < i :: Blank(s[k])
  {
    i := 0;
    if s != "" && IsSpace(s[0]) {
      var rest := TrimStartIs(s[1..]);
      i := rest + 1;
      assert s[1..][rest..] == s[i..];
      assert forall k | 1 <= k < i :: s[k] == s[1..][k - 1];
    }
  }

  lemma {:induction false} TrimEndIs(s: string)
    ensures var r := TrimEnd(s); |r| <= |s| && r == s[..|r|] && forall k | |r| <= k < |s| :: Blank(s[k])
  {
    if s != "" && IsSpace(s[|s| - 1]) { TrimEndIs(s[..|s| - 1]); }
  }

  lemma CoreOfRest(s: string, i: nat, rest: string, core: string)
    requires i <= |s| && rest == s[i..] && |core| <= |rest| && core == rest[..|core|]
    requires (forall k | 0 <= k < i :: Blank(s[k])) && (forall k | |core| <= k < |rest| :: Blank(rest[k]))
    requires core != "" ==> !Blank(core[0]) && !Blank(core[|core| - 1])
    ensures CoreAt(s, i, i + |core|) && core == s[i..i + |core|]
  {
    assert forall k | i + |core| <= k < |s| :: s[k] == rest[k - i];
  }

  lemma TrimIsCore(s: string)
    ensures IsCore(s, TrimEnd(TrimStart(s)))
  {
    var i := TrimStartIs(s);
    TrimEndIs(TrimStart(s));
    TrimStartIsTrimmed(s);
    CoreOfRest(s, i, TrimStart(s), TrimEnd(TrimStart(s)));
  }

  /** A name means the apex when there is nothing to it, and is else read without blanks and case. */
  ghost predicate Reads(name: string, normal: string) {
    exists core :: IsCore(name, core) && if core == "" then normal == "@" else SameText(core, normal) && forall c | c in normal :: !Upper(c)
  }

  lemma LowerIsSame(s: string)
    ensures SameText(s, ToLower(s)) && forall c | c in ToLower(s) :: !Upper(c)
  {
  }

  lemma NormalisedReads(name: string)
    ensures Reads(name, NormaliseName(name))
  {
    TrimIsCore(name);
    LowerIsSame(TrimEnd(TrimStart(name)));
  }

  lemma OneCoreAt(s: string, i: nat, j: nat, k: nat, l: nat)
    requires i <= j <= |s| && k <= l <= |s| && CoreAt(s, i, j) && CoreAt(s, k, l)
    ensures (i == j && k == l) || (i == k && j == l)
  {
  }

  lemma OneCore(s: string, a: string, b: string)
    requires IsCore(s, a) && IsCore(s, b)
    ensures a == b
  {
    var i, j :| 0 <= i <= j <= |s| && CoreAt(s, i, j) && a == s[i..j];
    var k, l :| 0 <= k <= l <= |s| && CoreAt(s, k, l) && b == s[k..l];
    OneCoreAt(s, i, j, k, l);
  }

  /** There is one way to read a name. */
  lemma OneReading(name: string, a: string, b: string)
    requires Reads(name, a) && Reads(name, b)
    ensures a == b
  {
    var core :| IsCore(name, core) && if core == "" then a == "@" else SameText(core, a) && forall c | c in a :: !Upper(c);
    var core' :| IsCore(name, core') && if core' == "" then b == "@" else SameText(core', b) && forall c | c in b :: !Upper(c);
    OneCore(name, core, core');
    if core != "" { OneLowering(core, a, b); }
  }

  lemma OneLowering(s: string, a: string, b: string)
    requires SameText(s, a) && SameText(s, b) && (forall c | c in a :: !Upper(c)) && (forall c | c in b :: !Upper(c))
    ensures a == b
  {
    forall i | 0 <= i < |s| ensures a[i] == b[i] {
      assert a[i] in a && b[i] in b && SameLetter(s[i], a[i]) && SameLetter(s[i], b[i]);
    }
  }

  lemma UpperIsSame(s: string, t: string)
    requires ToUpper(t) == t
    ensures ToUpper(s) == t <==> SameText(s, t)
  {
    if SameText(s, t) {
      forall i | 0 <= i < |s| ensures ToUpper(s)[i] == t[i] { assert ToUpper(t)[i] == t[i]; }
    }
  }

  /** A removal that names no type wants every table of the name. */
  lemma WantedByText(t: Table, name: string)
    ensures Wanted(t, name, None) <==> Reads(if t.name.Some? then t.name.value else "@", name)
  {
    var own := if t.name.Some? then t.name.value else "@";
    NormalisedReads(own);
    if Reads(own, name) { OneReading(own, name, NormaliseName(own)); }
  }

  /** A table is of the set when its name, or the apex's if it has none, reads as the set's, and its type is the set's but for case. */
  lemma MatchesByText(t: Table, name: string, rtype: string)
    requires ToUpper(rtype) == rtype
    ensures Matches(t, name, rtype)
       <==> Reads(if t.name.Some? then t.name.value else "@", name) && t.rtype.Some? && SameText(t.rtype.value, rtype)
  {
    var own := if t.name.Some? then t.name.value else "@";
    NormalisedReads(own);
    if Reads(own, name) { OneReading(own, name, NormaliseName(own)); }
    if t.rtype.Some? { UpperIsSame(t.rtype.value, rtype); }
  }
}
