/** The record sets of a config file as tables, how an edit finds one, and what reading them back shows. */
module RecordTables {

  datatype Option<+T> = None | Some(value: T)

  /** A table's `ttl` item, whatever the file holds there. */
  datatype TtlItem = NoTtl | Integer(value: int) | OtherTtl

  /** A table's `values` item; an array may hold elements that are not strings. */
  datatype ValuesItem = Absent | Array(elements: seq<Option<string>>) | NotArray

  /** `name` and `rtype` are `None` when absent or not strings; `rest` stands for every other key and comment. */
  datatype Table = Table(name: Option<string>, rtype: Option<string>, ttl: TtlItem, values: ValuesItem, rest: nat)

  datatype RecordEntry = RecordEntry(name: string, rtype: string, ttl: Option<nat>, values: seq<string>)

  const MAX_U32 := 0xffff_ffff

  // ------------------------------------------------------------------- names

  predicate IsSpace(c: char) {
    c in " \t\n\U{0b}\U{0c}\r"
  }

  function LowerChar(c: char): char {
    if 'A' <= c <= 'Z' then c - 'A' + 'a' else c
  }

  function UpperChar(c: char): char {
    if 'a' <= c <= 'z' then c - 'a' + 'A' else c
  }

  function ToLower(s: string): (r: string)
    ensures |r| == |s| && forall i | 0 <= i < |s| :: r[i] == LowerChar(s[i])
  {
    seq(|s|, i requires 0 <= i < |s| => LowerChar(s[i]))
  }

  function ToUpper(s: string): (r: string)
    ensures |r| == |s| && forall i | 0 <= i < |s| :: r[i] == UpperChar(s[i])
  {
    seq(|s|, i requires 0 <= i < |s| => UpperChar(s[i]))
  }

  function TrimStart(s: string): string {
    if s != "" && IsSpace(s[0]) then TrimStart(s[1..]) else s
  }

  function TrimEnd(s: string): (r: string)
    ensures |r| <= |s| && r == s[..|r|]
    ensures s != "" && !IsSpace(s[0]) ==> r != ""
    ensures r != "" ==> !IsSpace(r[|r| - 1])
  {
    if s != "" && IsSpace(s[|s| - 1]) then TrimEnd(s[..|s| - 1]) else s
  }

  function NormaliseName(name: string): string {
    var trimmed := TrimEnd(TrimStart(name));
    if trimmed == "" then "@" else ToLower(trimmed)
  }

  lemma {:induction false} TrimStartIsTrimmed(s: string)
    ensures TrimStart(s) == "" || !IsSpace(TrimStart(s)[0])
  {
    if s != "" && IsSpace(s[0]) { TrimStartIsTrimmed(s[1..]); }
  }

  predicate Trimmed(s: string) {
    s != "" && !IsSpace(s[0]) && !IsSpace(s[|s| - 1])
  }

  lemma LowerKeepsTrimmed(s: string)
    requires Trimmed(s)
    ensures Trimmed(ToLower(s)) && ToLower(ToLower(s)) == ToLower(s)
  {
    assert IsSpace(LowerChar(s[0])) == IsSpace(s[0]) && IsSpace(LowerChar(s[|s| - 1])) == IsSpace(s[|s| - 1]);
  }

  lemma TrimmedIsFixed(s: string)
    requires Trimmed(s)
    ensures TrimEnd(TrimStart(s)) == s
  {
  }

  /** A name written back is found again under itself. */
  lemma NormaliseIsIdempotent(name: string)
    ensures NormaliseName(NormaliseName(name)) == NormaliseName(name)
  {
    TrimStartIsTrimmed(name);
    var t := TrimEnd(TrimStart(name));
    if t == "" {
      TrimmedIsFixed("@");
    } else {
      LowerKeepsTrimmed(t);
      TrimmedIsFixed(ToLower(t));
    }
  }

  // ------------------------------------------------------------------ tables

  function NameOf(t: Table): string {
    NormaliseName(if t.name.Some? then t.name.value else "@")
  }

  predicate Matches(t: Table, name: string, rtype: string) {
    NameOf(t) == name && t.rtype.Some? && ToUpper(t.rtype.value) == rtype
  }

  function TtlOf(t: Table): Option<nat> {
    if t.ttl.Integer? && 0 <= t.ttl.value <= MAX_U32 then Some(t.ttl.value) else None
  }

  function SetTtl(t: Table, ttl: Option<nat>): Table {
    t.(ttl := if ttl.Some? then Integer(ttl.value) else NoTtl)
  }

  /** The strings of an array, in order; anything else in it is passed over. */
  function Strings(elements: seq<Option<string>>): (r: seq<string>)
    ensures |r| <= |elements|
  {
    if elements == [] then []
    else Strings(elements[..|elements| - 1]) + if elements[|elements| - 1].Some? then [elements[|elements| - 1].value] else []
  }

  function BuildArray(values: seq<string>): (r: seq<Option<string>>)
    ensures |r| == |values| && forall i | 0 <= i < |r| :: r[i] == Some(values[i])
  {
    seq(|values|, i requires 0 <= i < |values| => Some(values[i]))
  }

  lemma {:induction false} StringsOfBuilt(values: seq<string>)
    ensures Strings(BuildArray(values)) == values
  {
    if values != [] {
      var init := values[..|values| - 1];
      StringsOfBuilt(init);
      assert BuildArray(values)[..|values| - 1] == BuildArray(init);
      assert values == init + [values[|values| - 1]];
    }
  }

  lemma {:induction false} StringsJoin(a: seq<Option<string>>, b: seq<Option<string>>)
    ensures Strings(a + b) == Strings(a) + Strings(b)
  {
    if b == [] {
      assert a + b == a;
    } else {
      var init := b[..|b| - 1];
      assert (a + b)[..|a + b| - 1] == a + init;
      StringsJoin(a, init);
    }
  }

  /** What the edits work on: an absent `values` counts as, and becomes, an empty array. */
  function ElementsOf(t: Table): seq<Option<string>>
    requires !t.values.NotArray?
  {
    if t.values.Array? then t.values.elements else []
  }

  function ValuesOf(t: Table): seq<string> {
    if t.values.Array? then Strings(t.values.elements) else []
  }

  function WithArray(t: Table): Table
    requires !t.values.NotArray?
  {
    t.(values := Array(ElementsOf(t)))
  }

  function View(t: Table): RecordEntry {
    RecordEntry(if t.name.Some? then t.name.value else "@", if t.rtype.Some? then ToUpper(t.rtype.value) else "", TtlOf(t), ValuesOf(t))
  }

  function Records(tables: seq<Table>): (r: seq<RecordEntry>)
    ensures |r| == |tables| && forall i | 0 <= i < |r| :: r[i] == View(tables[i])
  {
    seq(|tables|, i requires 0 <= i < |tables| => View(tables[i]))
  }
}
