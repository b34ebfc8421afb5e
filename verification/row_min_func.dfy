/**
  The `row_min(src, f1, f2, ...)` stats function as a value: what its parser
  produces, how it renders itself back into query text, and which fields it
  asks the storage layer to fetch.
 */
module RowMinFunc {
  import opened Wrappers
  import opened BlockResults

  /** `row_min(srcField, fetchFields...)`; an empty `fetchFields` means "all fields". */
  datatype StatsRowMin = StatsRowMin(srcField: string, fetchFields: seq<string>)

  datatype ParseError =
    | UnexpectedFunc(token: string)  // the function name is not `row_min`
    | BadArgs                        // the parenthesised field list does not parse
    | MissingSourceField             // `row_min()` with no arguments

  /**
    parseStatsRowMin. `token` is the function name the lexer stands on;
    `args` is the parenthesised list of field names, or None when it does
    not parse.
   */
  function ParseStatsRowMin(token: string, args: Option<seq<string>>): (r: Result<StatsRowMin, ParseError>)
    ensures token != "row_min" ==> r == Err(UnexpectedFunc(token))
    ensures token == "row_min" && args.None? ==> r == Err(BadArgs)
    ensures token == "row_min" && args == Some([]) ==> r == Err(MissingSourceField)
    ensures r.Ok? <==> token == "row_min" && args.Some? && args.value != []
    ensures r.Ok? ==> r.value.srcField == args.value[0] && "*" !in r.value.fetchFields
    ensures r.Ok? && "*" !in args.value[1..] ==> r.value.fetchFields == args.value[1..]
    ensures r.Ok? && "*" in args.value[1..] ==> r.value.fetchFields == []
  {
    if token != "row_min" then Err(UnexpectedFunc(token))
    else if args.None? then Err(BadArgs)
    else
      var fields := args.value;
      if |fields| == 0 then Err(MissingSourceField)
      else
        var srcField := fields[0];
        var fetchFields := if "*" in fields[1..] then [] else fields[1..];
        Ok(StatsRowMin(srcField, fetchFields))
  }

  /** The argument list a row_min call carries: the source field, then the fetched fields. */
  function Arguments(sm: StatsRowMin): seq<string> {
    [sm.srcField] + sm.fetchFields
  }

  /** strings.Join(names, ", ") */
  function Join(names: seq<string>): string {
    if names == [] then ""
    else if |names| == 1 then names[0]
    else names[0] + ", " + Join(names[1..])
  }

  function QuoteAll(names: seq<string>, quote: string -> string): (q: seq<string>)
    ensures |q| == |names|
  {
    seq(|names|, i requires 0 <= i < |names| => quote(names[i]))
  }

  /** fieldNamesString: the quoted names, comma separated. */
  function FieldNamesString(fields: seq<string>, quote: string -> string): string {
    Join(QuoteAll(fields, quote))
  }

  /** statsRowMin.String; `quote` is quoteTokenIfNeeded. */
  function RowMinString(sm: StatsRowMin, quote: string -> string): (r: string)
    ensures |r| >= 9 && r[..8] == "row_min(" && r[|r| - 1] == ')'
    ensures sm.fetchFields == [] ==> r == "row_min(" + quote(sm.srcField) + ")"
  {
    var s := "row_min(" + quote(sm.srcField);
    var s := if |sm.fetchFields| > 0 then s + ", " + FieldNamesString(sm.fetchFields, quote) else s;
    s + ")"
  }

  /** The text String() renders lists exactly the call's arguments, quoted and comma separated. */
  lemma {:induction false} StringListsArguments(sm: StatsRowMin, quote: string -> string)
    ensures RowMinString(sm, quote) == "row_min(" + Join(QuoteAll(Arguments(sm), quote)) + ")"
  {
    var q := QuoteAll(Arguments(sm), quote);
    assert q == [quote(sm.srcField)] + QuoteAll(sm.fetchFields, quote);
    assert q[1..] == QuoteAll(sm.fetchFields, quote);
  }

  /** Parsing the argument list a parsed row_min renders gives it back. */
  lemma ParseInvertsArguments(sm: StatsRowMin)
    requires "*" !in sm.fetchFields
    ensures ParseStatsRowMin("row_min", Some(Arguments(sm))) == Ok(sm)
  {
    assert Arguments(sm)[1..] == sm.fetchFields;
  }

  /** Conversely, a parsed row_min carries the argument list it was parsed
      from, unless that list held `*`. */
  lemma ArgumentsInvertParse(token: string, args: seq<string>)
    requires ParseStatsRowMin(token, Some(args)).Ok?
    requires "*" !in args[1..]
    ensures Arguments(ParseStatsRowMin(token, Some(args)).value) == args
  {
    assert args == [args[0]] + args[1..];
  }

  /**
    updateNeededFields: the source field is always added; `*` (every
    field) when no fetch fields are named, otherwise exactly the fetch fields.
   */
  function UpdateNeededFields(sm: StatsRowMin, neededFields: set<string>): (r: set<string>)
    ensures neededFields <= r && sm.srcField in r
    ensures sm.fetchFields == [] ==> r == neededFields + {"*", sm.srcField}
    ensures sm.fetchFields != [] ==> r == neededFields + {sm.srcField} + set f | f in sm.fetchFields
  {
    var added := if |sm.fetchFields| == 0 then {"*"} else set f | f in sm.fetchFields;
    neededFields + added + {sm.srcField}
  }

  /** Every field name that a row snapshot of this row_min holds is among
      the needed fields, or the needed fields include `*`. */
  lemma NeededFieldsCoverSnapshot(sm: StatsRowMin, neededFields: set<string>, br: BlockResult, row: nat)
    requires WellFormed(br) && row < br.rows
    ensures var r := UpdateNeededFields(sm, neededFields);
      "*" in r || forall i :: 0 <= i < |Snapshot(sm.fetchFields, br, row)| ==>
        Snapshot(sm.fetchFields, br, row)[i].name in r
  {
    var fs := Snapshot(sm.fetchFields, br, row);
    if sm.fetchFields != [] {
      assert FieldNames(fs) == sm.fetchFields;
      forall i | 0 <= i < |fs| ensures fs[i].name in sm.fetchFields {
        assert FieldNames(fs)[i] == fs[i].name;
      }
    }
  }
}
