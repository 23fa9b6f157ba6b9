/** The lines `csv.writer(f, delimiter='\t')` writes: the fields joined by a
    tab. Quoting is not modelled, so the fields are taken to hold no tab,
    quote, carriage return or newline. */
module Tsv {

  function JoinTab(fields: seq<string>): string
  {
    if |fields| <= 1 then (if fields == [] then "" else fields[0])
    else fields[0] + "\t" + JoinTab(fields[1..])
  }

  /** How a reader splits one line (without its terminator) into fields. */
  function SplitTab(s: string): (r: seq<string>)
    ensures |r| >= 1
  {
    if s == [] then [""]
    else
      var rest := SplitTab(s[1..]);
      if s[0] == '\t' then [""] + rest else [[s[0]] + rest[0]] + rest[1..]
  }

  predicate Plain(field: string)
  {
    '\t' !in field && '"' !in field && '\r' !in field && '\n' !in field
  }

  lemma {:induction false} SplitTabPlain(f: string, t: string)
    requires '\t' !in f
    ensures SplitTab(f + t) == [f + SplitTab(t)[0]] + SplitTab(t)[1..]
  {
    if f != [] {
      assert (f + t)[1..] == f[1..] + t;
      SplitTabPlain(f[1..], t);
      assert [f[0]] + (f[1..] + SplitTab(t)[0]) == f + SplitTab(t)[0];
    } else {
      var r := SplitTab(t);
      assert f + t == t && f + r[0] == r[0];
      assert [r[0]] + r[1..] == r;
    }
  }

  /** A reader that splits at tabs gets back exactly the fields written. */
  lemma {:induction false} SplitJoin(fields: seq<string>)
    requires fields != []
    requires forall i :: 0 <= i < |fields| ==> Plain(fields[i])
    ensures SplitTab(JoinTab(fields)) == fields
  {
    if |fields| == 1 {
      SplitTabPlain(fields[0], "");
      assert fields[0] + "" == fields[0];
    } else {
      var rest := JoinTab(fields[1..]);
      SplitJoin(fields[1..]);
      assert fields[0] + "\t" + rest == fields[0] + ("\t" + rest);
      SplitTabPlain(fields[0], "\t" + rest);
      assert ("\t" + rest)[1..] == rest;
      var r := SplitTab("\t" + rest);
      assert r == [""] + fields[1..];
      assert fields[0] + r[0] == fields[0];
      assert fields == [fields[0]] + r[1..];
    }
  }
}
