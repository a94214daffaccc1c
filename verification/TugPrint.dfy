/** Printing a configuration tree as `set` lines. Go ranges over maps in random order, so the
    specification prints an ordered view of the tree, and every theorem holds for all views. */
module TugPrint {
  import opened Text
  import opened TugTree
  import opened TugSyntax

  /** A tree with an order chosen for the fields of every map. */
  datatype OTree = ONil | OLeaf(v: Scalar) | OList(items: seq<OTree>) | OMap(fields: seq<Field>)
  datatype Field = Field(key: string, val: OTree)

  function View(o: OTree): Tree {
    match o
    case ONil => Nil
    case OLeaf(v) => Leaf(v)
    case OList(items) => List(seq(|items|, i requires 0 <= i < |items| => View(items[i])))
    case OMap(fields) => Map(ViewFields(fields))
  }

  function ViewFields(fields: seq<Field>): TreeMap {
    if fields == [] then map[]
    else map[fields[0].key := View(fields[0].val)] + ViewFields(fields[1..])
  }

  predicate HasField(fields: seq<Field>, k: string) {
    exists i | 0 <= i < |fields| :: fields[i].key == k
  }

  /** Every map lists each of its keys once. */
  predicate WellKeyed(o: OTree) {
    match o
    case OList(items) => forall i | 0 <= i < |items| :: WellKeyed(items[i])
    case OMap(fields) => WellKeyedFields(fields)
    case _ => true
  }

  predicate WellKeyedFields(fields: seq<Field>) {
    fields != [] ==>
      && WellKeyed(fields[0].val)
      && !HasField(fields[1..], fields[0].key)
      && WellKeyedFields(fields[1..])
  }

  // ---------------------------------------------------------------- strconv.Quote

  function HexDigit(d: nat): char
    requires d < 16
  {
    if d < 10 then Digit(d) else ('a' as int + d - 10) as char
  }

  function Hex(n: nat, width: nat): string {
    if width == 0 then "" else Hex(n / 16, width - 1) + [HexDigit(n % 16)]
  }

  predicate IsPrint(e: Fmt, c: char) {
    if c < '\U{0080}' then ' ' <= c <= '~' else e.isPrint(c)
  }

  function HexEscape(n: nat): string {
    if n < 0x20 || n == 0x7F then "\\x" + Hex(n, 2)
    else if n < 0x10000 then "\\u" + Hex(n, 4)
    else "\\U" + Hex(n, 8)
  }

  /** The letter of the seven control characters that have one: BEL to CR. */
  function ControlLetter(n: nat): char
    requires 7 <= n <= 13
  {
    "abtnvfr"[n - 7]
  }

  function EscapeChar(e: Fmt, c: char): string {
    var n := c as int;
    if c == '"' || c == '\\' then ['\\', c]
    else if IsPrint(e, c) then [c]
    else if 7 <= n <= 13 then ['\\', ControlLetter(n)]
    else HexEscape(n)
  }

  function Escape(e: Fmt, s: string): string {
    if s == "" then "" else EscapeChar(e, s[0]) + Escape(e, s[1..])
  }

  function Quote(e: Fmt, s: string): string {
    "\"" + Escape(e, s) + "\""
  }

  predicate NeedsQuote(s: string) {
    exists i | 0 <= i < |s| :: s[i] == ' ' || s[i] == '\t' || s[i] == '#' || s[i] == '"'
  }

  function ScalarText(e: Fmt, s: string): string {
    if NeedsQuote(s) then Quote(e, s) else s
  }

  // ---------------------------------------------------------------- emitSetLines

  function Under(prefix: string, k: string): string {
    if prefix == "" then k else prefix + " " + k
  }

  /** Position of the field with key `k`, or the number of fields. */
  function FieldIndex(fields: seq<Field>, k: string): (i: nat)
    ensures i <= |fields|
    ensures i < |fields| ==> fields[i].key == k
    ensures forall j | 0 <= j < i :: fields[j].key != k
  {
    if fields == [] then 0 else if fields[0].key == k then 0 else FieldIndex(fields[1..], k) + 1
  }

  /** The field that names a list entry: `id`, else `name`, else none. */
  function KeyIndex(fields: seq<Field>): (i: nat)
    ensures i <= |fields|
  {
    var i := FieldIndex(fields, "id");
    if i < |fields| then i else FieldIndex(fields, "name")
  }

  function EntryHead(prefix: string, key: string): string {
    if HasSuffix(prefix, "pops") then "pop " + key
    else if Contains(prefix, "barges") || HasSuffix(prefix, "products") then "stack barge " + key
    else prefix + " " + key
  }

  function SprintAll(e: Fmt, items: seq<OTree>): (r: seq<string>)
    ensures |r| == |items|
    ensures forall i | 0 <= i < |items| :: r[i] == Sprint(e, View(items[i]))
  {
    seq(|items|, i requires 0 <= i < |items| => Sprint(e, View(items[i])))
  }

  function SetLine(prefix: string, text: string): string {
    "set " + prefix + " " + text
  }

  predicate AllMaps(items: seq<OTree>) {
    forall i | 0 <= i < |items| :: items[i].OMap?
  }

  function Emit(e: Fmt, prefix: string, o: OTree): seq<string>
    decreases o, 1
  {
    match o
    case ONil => []
    case OLeaf(v) =>
      var s := SprintScalar(e, v);
      if TrimSpace(s) == "" then [] else [SetLine(prefix, ScalarText(e, s))]
    case OMap(fields) => EmitFields(e, prefix, fields)
    case OList(items) =>
      if AllMaps(items) then EmitItems(e, prefix, items)
      else [SetLine(prefix, "[" + Join(SprintAll(e, items), ',') + "]")]
  }

  function EmitFields(e: Fmt, prefix: string, fields: seq<Field>): seq<string>
    decreases fields, 0
  {
    if fields == [] then []
    else Emit(e, Under(prefix, fields[0].key), fields[0].val) + EmitFields(e, prefix, fields[1..])
  }

  function EmitItems(e: Fmt, prefix: string, items: seq<OTree>): seq<string>
    requires AllMaps(items)
    decreases items, 0
  {
    if items == [] then []
    else EmitItem(e, prefix, items[0].fields) + EmitItems(e, prefix, items[1..])
  }

  /** One entry of a list of maps. */
  function EmitItem(e: Fmt, prefix: string, fields: seq<Field>): seq<string>
    decreases fields, 1
  {
    var i := KeyIndex(fields);
    var key := if i < |fields| then Sprint(e, View(fields[i].val)) else "";
    if key == "" then EmitFields(e, prefix, fields)
    else EmitChildren(e, EntryHead(prefix, key), fields, fields[i].key)
  }

  function EmitChildren(e: Fmt, head: string, fields: seq<Field>, skip: string): seq<string>
    decreases fields, 0
  {
    if fields == [] then []
    else
      (if fields[0].key == skip then [] else Emit(e, head + " " + fields[0].key, fields[0].val))
      + EmitChildren(e, head, fields[1..], skip)
  }

  function SetLinesText(lines: seq<string>): string {
    Join(lines, '\n') + "\n"
  }

  // ---------------------------------------------------------------- views

  lemma {:induction false} ViewFieldsKeys(fields: seq<Field>)
    ensures forall k :: k in ViewFields(fields) <==> HasField(fields, k)
  {
    if fields != [] {
      ViewFieldsKeys(fields[1..]);
      forall k ensures k in ViewFields(fields) <==> HasField(fields, k) {
        if HasField(fields, k) && k != fields[0].key {
          var i :| 0 <= i < |fields| && fields[i].key == k;
          assert fields[1..][i - 1].key == k;
        }
        if HasField(fields[1..], k) {
          var i :| 0 <= i < |fields| - 1 && fields[1..][i].key == k;
          assert fields[i + 1].key == k;
        }
      }
    }
  }

  /** In a well-keyed view the head field and the rest are independent. */
  lemma ViewFieldsCons(fields: seq<Field>)
    requires fields != [] && WellKeyedFields(fields)
    ensures fields[0].key !in ViewFields(fields[1..])
    ensures ViewFields(fields) == ViewFields(fields[1..])[fields[0].key := View(fields[0].val)]
  {
    ViewFieldsKeys(fields[1..]);
  }
}
