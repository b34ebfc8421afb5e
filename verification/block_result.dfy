/**
  The part of a query's block result that the `row_min` stats function reads:
  a block of `rows` log rows stored as named columns of string values.
  A column's values are its decoded per-row strings; the `_time` column holds
  the RFC3339 renderings of the row timestamps.
 */
module BlockResults {

  /** One name/value pair of a log row. */
  datatype Field = Field(name: string, value: string)

  /** How a column is stored. It decides which shortcut updateStatsForAllRows
      takes before it reads individual rows. */
  datatype ValueKind =
    | Strings                        // plain strings: no summary, every row is read
    | Dict(dictValues: seq<string>)  // dictionary encoding: the values of the dictionary
    | Summary(minValue: string)      // integer, float, IPv4 and ISO8601 encodings: the rendered column minimum
    | Const                          // one value shared by every row
    | Time(minTimestamp: string)     // the `_time` column: the rendered earliest timestamp of the block

  datatype Column = Column(name: string, values: seq<string>, kind: ValueKind)

  datatype BlockResult = BlockResult(columns: seq<Column>, rows: nat)

  /** A column of a block with `rows` rows: one value per row; a constant
      column holds the same value in every row; a dictionary column holds
      only values of its dictionary. */
  ghost predicate ColumnOk(c: Column, rows: nat) {
    && |c.values| == rows
    && (c.kind.Const? ==> forall i :: 0 <= i < |c.values| ==> c.values[i] == c.values[0])
    && (c.kind.Dict? ==> forall i :: 0 <= i < |c.values| ==> c.values[i] in c.kind.dictValues)
  }

  ghost predicate WellFormed(br: BlockResult) {
    forall i :: 0 <= i < |br.columns| ==> ColumnOk(br.columns[i], br.rows)
  }

  /** The column a name stands for when the block has none of that name:
      a constant column whose value is empty in every row. */
  function MissingColumn(name: string, rows: nat): (c: Column)
    ensures c.name == name && ColumnOk(c, rows)
    ensures forall i :: 0 <= i < rows ==> c.values[i] == ""
  {
    Column(name, seq(rows, _ => ""), Const)
  }

  ghost predicate NoneNamed(cs: seq<Column>, name: string) {
    forall i :: 0 <= i < |cs| ==> cs[i].name != name
  }

  /** `c` is the first column of `cs` called `name`. */
  ghost predicate FirstNamed(cs: seq<Column>, name: string, c: Column) {
    exists i :: 0 <= i < |cs| && cs[i] == c && c.name == name && NoneNamed(cs[..i], name)
  }

  function FindColumn(cs: seq<Column>, name: string, rows: nat): (c: Column)
    ensures c.name == name
    ensures (forall col :: col in cs ==> ColumnOk(col, rows)) ==> ColumnOk(c, rows)
    ensures FirstNamed(cs, name, c) || (NoneNamed(cs, name) && c == MissingColumn(name, rows))
  {
    if cs == [] then MissingColumn(name, rows)
    else if cs[0].name == name then
      assert cs[..0] == [];
      cs[0]
    else
      var c := FindColumn(cs[1..], name, rows);
      assert forall col :: col in cs[1..] ==> col in cs;
      FirstNamedSkip(cs, name, c);
      c
  }

  lemma FirstNamedSkip(cs: seq<Column>, name: string, c: Column)
    requires cs != [] && cs[0].name != name
    ensures FirstNamed(cs[1..], name, c) ==> FirstNamed(cs, name, c)
  {
    if FirstNamed(cs[1..], name, c) {
      var i :| 0 <= i < |cs[1..]| && cs[1..][i] == c && c.name == name && NoneNamed(cs[1..][..i], name);
      assert cs[..i + 1] == [cs[0]] + cs[1..][..i];
      assert cs[i + 1] == c && NoneNamed(cs[..i + 1], name);
    }
  }

  /** getColumnByName: the first column of the block with the given name,
      or an empty constant column of that name when there is none. */
  function ColumnByName(br: BlockResult, name: string): (c: Column)
    ensures c.name == name
    ensures WellFormed(br) ==> ColumnOk(c, br.rows)
    ensures FirstNamed(br.columns, name, c) || (NoneNamed(br.columns, name) && c == MissingColumn(name, br.rows))
  {
    assert WellFormed(br) ==> forall col :: col in br.columns ==> ColumnOk(col, br.rows);
    FindColumn(br.columns, name, br.rows)
  }

  function FieldNames(fs: seq<Field>): seq<string> {
    seq(|fs|, i requires 0 <= i < |fs| => fs[i].name)
  }

  function ColumnNames(cs: seq<Column>): seq<string> {
    seq(|cs|, i requires 0 <= i < |cs| => cs[i].name)
  }

  /**
    The fields of row `row` that row_min keeps beside its minimum: every
    column of the block in column order when `fetchFields` is empty,
    otherwise exactly the `fetchFields` columns in `fetchFields` order.
   */
  function Snapshot(fetchFields: seq<string>, br: BlockResult, row: nat): (fs: seq<Field>)
    requires WellFormed(br) && row < br.rows
    ensures FieldNames(fs) == if fetchFields == [] then ColumnNames(br.columns) else fetchFields
    ensures fetchFields == [] ==> forall i :: 0 <= i < |fs| ==>
      fs[i] == Field(br.columns[i].name, br.columns[i].values[row])
    ensures fetchFields != [] ==> forall i :: 0 <= i < |fs| ==>
      fs[i] == Field(fetchFields[i], ColumnByName(br, fetchFields[i]).values[row])
  {
    if |fetchFields| == 0 then
      seq(|br.columns|, i requires 0 <= i < |br.columns| =>
        Field(br.columns[i].name, br.columns[i].values[row]))
    else
      seq(|fetchFields|, i requires 0 <= i < |fetchFields| =>
        var c := ColumnByName(br, fetchFields[i]);
        Field(c.name, c.values[row]))
  }

  /** The number of bytes the UTF-8 encoding of one character takes. */
  function Utf8Width(c: char): (n: nat)
    ensures 1 <= n <= 4
    ensures n == 1 <==> c as int < 0x80
  {
    if c as int < 0x80 then 1
    else if c as int < 0x800 then 2
    else if c as int < 0x1_0000 then 3
    else 4
  }

  /**
    len(s) of a Go string: the number of bytes of its UTF-8 encoding, at
    least the number of characters and at most four times that.
   */
  function ByteLen(s: string): (n: nat)
    ensures |s| <= n <= 4 * |s|
  {
    if s == [] then 0 else ByteLen(s[..|s| - 1]) + Utf8Width(s[|s| - 1])
  }

  /** The byte length equals the number of characters exactly for ASCII text. */
  lemma {:induction false} ByteLenAscii(s: string)
    ensures ByteLen(s) == |s| <==> forall i :: 0 <= i < |s| ==> s[i] as int < 0x80
  {
    if s != [] {
      var p := s[..|s| - 1];
      ByteLenAscii(p);
      assert forall i :: 0 <= i < |p| ==> p[i] == s[i];
    }
  }

  /** Bytes a list of fields holds: the lengths of all names and values. */
  function FieldsSize(fs: seq<Field>): nat {
    if fs == [] then 0
    else FieldsSize(fs[..|fs| - 1]) + ByteLen(fs[|fs| - 1].name) + ByteLen(fs[|fs| - 1].value)
  }

  /** Appending a field adds the bytes of its name and value. */
  lemma FieldsSizeAppend(fs: seq<Field>, f: Field)
    ensures FieldsSize(fs + [f]) == FieldsSize(fs) + ByteLen(f.name) + ByteLen(f.value)
  {
    assert (fs + [f])[..|fs|] == fs;
  }
}
