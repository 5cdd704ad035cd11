/** The parser inside `(*IPSet).Statistics`: the first line of the terse listing, cut
    at white space (`strings.Fields`), each piece cut at colons (`strings.Split`), and
    the recognised labels copied into a `Stats` record. */
module StatsParser {
  import opened Text
  import opened Numbers
  import opened Exec

  /** `Stats`: the set type, memory size, reference count and entry count (uint64s). */
  datatype Stats = Stats(Type: string, Size: nat, Refs: nat, Entries: nat)

  const NoStats := Stats("", 0, 0, 0)

  /** How `Statistics` ends: it returns its named results `(stats, err)`, or it
      indexes past the end of a split field (`values[2]`) and panics. */
  datatype StatsOutcome = Returned(stats: Stats, status: Outcome) | IndexPanic

  /** The label of a field: the part before its first colon. */
  function Label(field: string): string {
    Split(field, ':')[0]
  }

  predicate IsNumericLabel(lbl: string) {
    lbl == "Size in memory" || lbl == "References" || lbl == "Number of entries"
  }

  predicate IsKnownLabel(lbl: string) {
    lbl == "Type" || IsNumericLabel(lbl)
  }

  /** `strconv.ParseUint(text, 0, 64)` as the switch uses it: the number it assigns and the error. */
  function ReadUint(text: string): (r: (nat, Outcome))
    ensures r.0 <= MaxUint64
    ensures r.1.Pass? ==> |text| > 0 && AllDigits(text) && r.0 == Value(text)
    ensures r.1.Fail? ==> r.1.error == ParseError(text) && (r.0 == 0 || r.0 == MaxUint64)
  {
    var p := ParseUint(text);
    (p.Returned(), if p.Parsed? then Pass else Fail(ParseError(text)))
  }

  /** A field without a space cannot carry a label that contains one. */
  lemma {:induction false} SpacedLabelsNeedSpace(field: string)
    ensures ' ' !in field ==> Label(field) != "Size in memory" && Label(field) != "Number of entries"
  {
    var l := Label(field);
    if l == "Size in memory" || l == "Number of entries" {
      assert l[4] == ' ' || l[6] == ' ';
      assert l == field[..|l|];
      assert ' ' in field;
    }
  }

  /** One pass of the loop over the fields: the `switch values[0]` and its cases. */
  function FieldStep(acc: Stats, field: string): (r: StatsOutcome)
    ensures !IsKnownLabel(Label(field)) ==> r == Returned(acc, Pass)
    ensures r.IndexPanic? <==> IsKnownLabel(Label(field)) && |Split(field, ':')| < 3
    ensures r.Returned? && Label(field) != "Type" ==> r.stats.Type == acc.Type
    ensures r.Returned? && Label(field) == "Type" ==> r == Returned(acc.(Type := Split(field, ':')[2]), Pass)
    ensures r.Returned? && r.status.Fail? ==> IsNumericLabel(Label(field)) && r.status.error == ParseError(Split(field, ':')[2])
    ensures r.Returned? && Label(field) != "References" ==> r.stats.Refs == acc.Refs
    ensures r.Returned? && Label(field) == "References" ==>
      r == Returned(acc.(Refs := ReadUint(Split(field, ':')[2]).0), ReadUint(Split(field, ':')[2]).1)
    ensures r.Returned? && Label(field) == "Size in memory" ==>
      r == Returned(acc.(Size := ReadUint(Split(field, ':')[2]).0), ReadUint(Split(field, ':')[2]).1)
    ensures r.Returned? && Label(field) == "Number of entries" ==>
      r == Returned(acc.(Entries := ReadUint(Split(field, ':')[2]).0), ReadUint(Split(field, ':')[2]).1)
    ensures ' ' !in field && r.Returned? ==> r.stats.Size == acc.Size && r.stats.Entries == acc.Entries
  {
    SpacedLabelsNeedSpace(field);
    var values := Split(field, ':');
    if |values| == 0 then Returned(acc, Pass)
    else if values[0] == "Type" then
      if |values| < 3 then IndexPanic else Returned(acc.(Type := values[2]), Pass)
    else if values[0] == "Size in memory" then
      if |values| < 3 then IndexPanic
      else var (n, status) := ReadUint(values[2]); Returned(acc.(Size := n), status)
    else if values[0] == "References" then
      if |values| < 3 then IndexPanic
      else var (n, status) := ReadUint(values[2]); Returned(acc.(Refs := n), status)
    else if values[0] == "Number of entries" then
      if |values| < 3 then IndexPanic
      else var (n, status) := ReadUint(values[2]); Returned(acc.(Entries := n), status)
    else Returned(acc, Pass)
  }

  /** The loop `for _, l := range fields`: it stops at the first parse error or panic. */
  function FieldsStep(acc: Stats, fields: seq<string>): (r: StatsOutcome)
    ensures (forall i :: 0 <= i < |fields| ==> !IsKnownLabel(Label(fields[i]))) ==> r == Returned(acc, Pass)
    ensures (forall i :: 0 <= i < |fields| ==> ' ' !in fields[i]) && r.Returned?
            ==> r.stats.Size == acc.Size && r.stats.Entries == acc.Entries
    ensures r.Returned? && r.status.Fail? ==> r.status.error.ParseError?
    ensures |fields| == 1 ==> r == FieldStep(acc, fields[0])
    decreases |fields|
  {
    if |fields| == 0 then Returned(acc, Pass)
    else match FieldStep(acc, fields[0])
      case IndexPanic => IndexPanic
      case Returned(st, Fail(e)) => Returned(st, Fail(e))
      case Returned(st, Pass) => FieldsStep(st, fields[1..])
  }

  /** `Statistics` after `ListTerse` succeeded with tokens `info`: only `info[0]` is read,
      and the "Size in memory" and "Number of entries" labels, which contain spaces,
      can never be the label of a field that `strings.Fields` produced. */
  function StatsOfTerse(info: seq<string>): (r: StatsOutcome)
    ensures |info| == 0 ==> r == Returned(NoStats, Pass)
    ensures r.Returned? ==> r.stats.Size == 0 && r.stats.Entries == 0
    ensures r.Returned? && r.status.Fail? ==> r.status.error.ParseError?
  {
    if |info| == 0 then Returned(NoStats, Pass)
    else
      var fields := Fields(info[0], IsSpace);
      assert forall i :: 0 <= i < |fields| ==> ' ' !in fields[i] by {
        forall i | 0 <= i < |fields| ensures ' ' !in fields[i] {
          assert IsToken(fields[i], IsSpace);
        }
      }
      FieldsStep(NoStats, fields)
  }

  /** Fields are read one after the other: the loop over `a + b` is the loop over `a`,
      then, unless that ended in an error or a panic, the loop over `b`. */
  lemma {:induction false} FieldsStepAppend(acc: Stats, a: seq<string>, b: seq<string>)
    ensures FieldsStep(acc, a + b) ==
      match FieldsStep(acc, a)
      case Returned(st, Pass) => FieldsStep(st, b)
      case other => other
    decreases |a|
  {
    if |a| == 0 {
      assert a + b == b;
    } else {
      assert (a + b)[0] == a[0];
      assert (a + b)[1..] == a[1..] + b;
      match FieldStep(acc, a[0])
      case IndexPanic =>
      case Returned(st, Fail(e)) =>
      case Returned(st, Pass) => FieldsStepAppend(st, a[1..], b);
    }
  }

  /** A `Label:index:value` triple, the shape of the fields the parser looks for. */
  function Triple(lbl: string, index: string, value: string): string {
    Join([lbl, index, value], ':')
  }

  lemma {:induction false} SplitOfTriple(lbl: string, index: string, value: string)
    requires ':' !in lbl && ':' !in index && ':' !in value
    ensures Split(Triple(lbl, index, value), ':') == [lbl, index, value]
  {
    SplitOfJoin([lbl, index, value], ':');
  }

  /** The type and the reference count written as triples are read back; size and entries stay 0. */
  lemma {:induction false} ParseTypeAndReferences(acc: Stats, typ: string, refs: nat, i1: string, i2: string)
    requires ':' !in typ && ':' !in i1 && ':' !in i2
    requires refs <= MaxUint64
    ensures FieldsStep(acc, [Triple("Type", i1, typ), Triple("References", i2, Itoa(refs))])
            == Returned(acc.(Type := typ, Refs := refs), Pass)
  {
    var f1 := Triple("Type", i1, typ);
    var f2 := Triple("References", i2, Itoa(refs));
    SplitOfTriple("Type", i1, typ);
    assert ':' !in Itoa(refs) by {
      assert AllDigits(Itoa(refs));
    }
    SplitOfTriple("References", i2, Itoa(refs));
    ParseUintOfItoa(refs);
    assert [f1, f2][1..] == [f2];
    assert [f2][1..] == [];
  }

  /** A reference count that does not parse ends the loop at once: the type read
      before it is kept, `Refs` holds what `ParseUint` returned, later fields are not read. */
  lemma {:induction false} BadReferencesStopTheLoop(acc: Stats, typ: string, text: string, i1: string, i2: string, rest: seq<string>)
    requires ':' !in typ && ':' !in i1 && ':' !in i2 && ':' !in text
    requires !ParseUint(text).Parsed?
    ensures FieldsStep(acc, [Triple("Type", i1, typ), Triple("References", i2, text)] + rest)
            == Returned(acc.(Type := typ, Refs := ParseUint(text).Returned()), Fail(ParseError(text)))
  {
    var f1 := Triple("Type", i1, typ);
    var f2 := Triple("References", i2, text);
    SplitOfTriple("Type", i1, typ);
    SplitOfTriple("References", i2, text);
    FieldsStepAppend(acc, [f1, f2], rest);
    assert [f1, f2][1..] == [f2];
  }

  /** A field labelled "Type" or "References" with fewer than three colon parts makes
      `Statistics` panic, e.g. a "Type:" field with nothing after its colon. */
  lemma {:induction false} ShortTypeFieldPanics(acc: Stats, rest: seq<string>)
    ensures FieldsStep(acc, ["Type:"] + rest) == IndexPanic
  {
    assert "Type:" == Join(["Type", ""], ':');
    SplitOfJoin(["Type", ""], ':');
  }

  /** Only the first token of the terse listing matters. */
  lemma {:induction false} StatsReadOnlyFirstToken(a: seq<string>, b: seq<string>)
    requires |a| > 0 && |b| > 0 && a[0] == b[0]
    ensures StatsOfTerse(a) == StatsOfTerse(b)
  {
  }

  /** A first token made of white-space-separated fields is parsed field by field. */
  lemma {:induction false} StatsOfJoinedFields(fields: seq<string>, c: char, rest: seq<string>)
    requires IsSpace(c)
    requires forall i :: 0 <= i < |fields| ==> IsToken(fields[i], IsSpace)
    ensures StatsOfTerse([Join(fields, c)] + rest) == FieldsStep(NoStats, fields)
  {
    FieldsOfJoin(fields, c, IsSpace);
  }
}
