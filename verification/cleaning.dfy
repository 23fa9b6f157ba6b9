/** The cleaning step of the analysis scripts: read the `Timestamp` column
    with the layout `%d-%m-%Y %H:%M:%S` (one unreadable timestamp fails the
    whole step), then keep the rows whose message is not exactly
    "TESTOPROEP MOB" and does not contain the whole word "test" in any
    letter case. */
module Cleaning {
  import opened Text
  import opened Seqs
  import opened RowPattern
  import opened WordFilter
  import opened Timestamp

  /** `pl.read_csv` reads an empty field as null (None) and any other field
      as the text written. */
  function ReadField(s: string): (r: Option<string>)
    ensures r.None? <==> s == []
    ensures r.Some? ==> r.value == s
  {
    if s == [] then None else Some(s)
  }

  /** A row as the analysis reads it back, after its timestamp has been
      parsed. A null timestamp stays null. */
  datatype Record = Record(time: Option<DateTime>, service: Option<string>, region: Option<string>, message: Option<string>)

  const TestCall: string := "TESTOPROEP MOB"

  /** The keep condition of the filter. On a null message both comparisons
      are null, so is their conjunction, and `filter` drops a row whose
      condition is null. */
  predicate Keep(message: Option<string>)
  {
    message.Some? && message.value != TestCall && !ContainsTest(message.value)
  }

  predicate KeepRecord(r: Record) { Keep(r.message) }

  /** `with_columns(pl.col("Timestamp").str.to_datetime(...))`: every
      non-null timestamp read, or nothing if one of them cannot be read. An
      empty timestamp was read as null and stays null. */
  function ParseRows(rows: seq<Row>): (r: Option<seq<Record>>)
    ensures r.Some? <==> forall i :: 0 <= i < |rows| ==> rows[i].timestamp == [] || Parse(rows[i].timestamp).Some?
    ensures r.Some? ==> |r.value| == |rows| && forall i :: 0 <= i < |rows| ==>
      r.value[i] == Record(Parse(rows[i].timestamp), ReadField(rows[i].service), ReadField(rows[i].region), ReadField(rows[i].message))
  {
    if rows == [] then Some([])
    else
      var t := rows[0].timestamp;
      var rest := ParseRows(rows[1..]);
      RowsTail(rows);
      if (t != [] && Parse(t).None?) || rest.None? then None
      else
        Some([Record(Parse(t), ReadField(rows[0].service), ReadField(rows[0].region), ReadField(rows[0].message))] + rest.value)
  }

  /** Row `i` of the tail is row `i + 1` of the whole. */
  lemma RowsTail(rows: seq<Row>)
    requires rows != []
    ensures forall i :: 1 <= i < |rows| ==> rows[i] == rows[1..][i - 1]
  {
  }

  /** The `filter` step on rows whose timestamps have been read. */
  function KeepRows(records: seq<Record>): (kept: seq<Record>)
    ensures |kept| <= |records|
    ensures forall i :: 0 <= i < |kept| ==> Keep(kept[i].message)
  {
    Filter(records, KeepRecord)
  }

  /** `df_clean`: it fails exactly when a non-empty timestamp cannot be
      read; every row it keeps has a message, and one that passes the keep
      condition. */
  function Clean(rows: seq<Row>): (r: Option<seq<Record>>)
    ensures r.Some? <==> forall i :: 0 <= i < |rows| ==> rows[i].timestamp == [] || Parse(rows[i].timestamp).Some?
    ensures r.Some? ==> |r.value| <= |rows| && forall i :: 0 <= i < |r.value| ==>
      r.value[i].message.Some? && r.value[i].message.value != [] && Keep(r.value[i].message)
  {
    match ParseRows(rows)
    case None => None
    case Some(records) =>
      assert forall x :: x in records && x.message.Some? ==> x.message.value != [];
      Some(KeepRows(records))
  }

  /** "Rows Removed": the original count minus the cleaned count. */
  function RowsRemoved(rows: seq<Row>): nat
    requires Clean(rows).Some?
  {
    |rows| - |Clean(rows).value|
  }

  /** The rows removed are exactly the rows that fail the keep condition. */
  lemma {:induction false} RowsRemovedAreFailures(rows: seq<Row>)
    requires Clean(rows).Some?
    ensures RowsRemoved(rows) == |Filter(ParseRows(rows).value, r => !KeepRecord(r))|
  {
    FilterPartition(ParseRows(rows).value, KeepRecord, r => !KeepRecord(r));
  }

  /** The cleaned rows keep their order, every kept row appears as often as
      in the input, and no row that fails the condition is kept. */
  lemma KeepRowsExactly(records: seq<Record>)
    ensures IsSubsequence(KeepRows(records), records)
    ensures forall r: Record :: r in multiset(records) && Keep(r.message) ==> multiset(KeepRows(records))[r] == multiset(records)[r]
    ensures forall r: Record :: !Keep(r.message) ==> r !in KeepRows(records)
  {
    FilterIsSubsequence(records, KeepRecord);
    FilterCounts(records, KeepRecord);
  }

  /** Cleaning rows that are already clean removes nothing more. */
  lemma KeepRowsIdempotent(records: seq<Record>)
    ensures KeepRows(KeepRows(records)) == KeepRows(records)
  {
    FilterIdempotent(records, KeepRecord);
  }

  /** The exact comparison is what removes the test call: the whole-word
      search alone keeps it, since "TESTOPROEP" is a longer word. */
  lemma TestCallDroppedByExactComparison()
    ensures !ContainsTest(TestCall) && !Keep(Some(TestCall))
  {
    NoWordAsPrefix();
  }

  /** The comparison is exact and case-sensitive: the same words in lower
      case, or followed by anything more, are kept. */
  lemma ExactComparisonOnly()
    ensures Keep(Some("testoproep mob")) && Keep(Some("TESTOPROEP MOB 2"))
  {
    LowerCaseTestCall();
    LongerTestCall();
  }

  lemma LowerCaseTestCall() ensures !ContainsTest("testoproep mob") {}

  lemma LongerTestCall() ensures !ContainsTest("TESTOPROEP MOB 2") {}
}
