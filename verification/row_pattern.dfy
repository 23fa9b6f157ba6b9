/** The one regular expression the harvester applies to a listing page, and
    `findall` over it: a left-to-right, non-overlapping scan that tries each
    start position in turn and, at a position, takes the first match that
    Python's backtracking finds. The pattern is
      <td class="DT">(TS)</td><td class=".*?">(.*?)</td><td class="Regio">(.*?)</td><td class=".*?">(.*?)</td>
    where TS is `\d{2}-\d{2}-\d{4} \d{2}:\d{2}:\d{2}` and `.` is any character
    except a newline. */
module RowPattern {
  import opened Text

  /** One captured dispatch record. */
  datatype Row = Row(timestamp: string, service: string, region: string, message: string)

  const OpenCell: string := "<td class=\"DT\">"
  const NextCell: string := "</td><td class=\""
  const AttrEnd: string := "\">"
  const RegionCell: string := "</td><td class=\"Regio\">"
  const CloseCell: string := "</td>"

  /** What ends each of the five lazy groups that follow the timestamp cell:
      the service class, the service, the region, the message class and the
      message. Groups 1, 2 and 4 are captured. */
  const Terminators: seq<string> := [AttrEnd, RegionCell, NextCell, AttrEnd, CloseCell]

  predicate LitAt(s: string, i: nat, lit: string)
  {
    i + |lit| <= |s| && s[i..i + |lit|] == lit
  }

  /** The shape `DD-MM-YYYY HH:MM:SS`: digits everywhere except the two dashes,
      the space and the two colons. */
  predicate TimestampShape(t: string)
  {
    |t| == 19 && t[2] == '-' && t[5] == '-' && t[10] == ' ' && t[13] == ':' && t[16] == ':'
    && forall k :: 0 <= k < 19 && k != 2 && k != 5 && k != 10 && k != 13 && k != 16 ==> IsDigit(t[k])
  }

  /** What every captured row looks like. */
  predicate WellShaped(r: Row)
  {
    TimestampShape(r.timestamp) && '\n' !in r.service && '\n' !in r.region && '\n' !in r.message
  }

  /** The lazy group that started at `p` has grown to `j`: try to end it here
      (the terminator follows and the rest of the chain matches after it), and
      otherwise grow it by one character that is not a newline. */
  function LazyFrom(s: string, p: nat, j: nat, lits: seq<string>): (r: Option<(seq<string>, nat)>)
    requires p <= j <= |s| && lits != []
    requires '\n' !in s[p..j]
    ensures r.Some? ==> |r.value.0| == |lits| && j <= r.value.1 <= |s|
    ensures r.Some? ==> forall k :: 0 <= k < |lits| ==> '\n' !in r.value.0[k]
    ensures r.Some? ==> s[p..r.value.1] == Interleave(r.value.0, lits)
    decreases |lits|, |s| - j, 0
  {
    var rest := if LitAt(s, j, lits[0]) then LazyChain(s, j + |lits[0]|, lits[1..]) else None;
    if rest.Some? then
      var groups, e := [s[p..j]] + rest.value.0, rest.value.1;
      assert groups[1..] == rest.value.0;
      assert s[p..e] == s[p..j] + s[j..j + |lits[0]|] + s[j + |lits[0]|..e];
      Some((groups, e))
    else if j < |s| && s[j] != '\n' then
      assert s[p..j + 1] == s[p..j] + [s[j]];
      LazyFrom(s, p, j + 1, lits)
    else
      None
  }

  /** Matches `(.*?)lits[0](.*?)lits[1]...` at `p`; yields the groups and where
      the match ends. */
  function LazyChain(s: string, p: nat, lits: seq<string>): (r: Option<(seq<string>, nat)>)
    requires p <= |s|
    ensures r.Some? ==> |r.value.0| == |lits| && p <= r.value.1 <= |s|
    ensures r.Some? ==> forall k :: 0 <= k < |lits| ==> '\n' !in r.value.0[k]
    ensures r.Some? ==> s[p..r.value.1] == Interleave(r.value.0, lits)
    decreases |lits|, |s| - p, 1
  {
    if lits == [] then Some(([], p)) else LazyFrom(s, p, p, lits)
  }

  /** The match that starts exactly at `p`, if any: the row and the position
      just past it. */
  function MatchAt(s: string, p: nat): (r: Option<(Row, nat)>)
    requires p <= |s|
    ensures r.Some? ==> p < r.value.1 <= |s| && WellShaped(r.value.0)
    ensures r.Some? ==> exists sc, mc :: s[p..r.value.1] == Render(Listing(r.value.0, sc, mc))
  {
    var ts := p + |OpenCell|;
    if LitAt(s, p, OpenCell) && ts + 19 <= |s| && TimestampShape(s[ts..ts + 19]) && LitAt(s, ts + 19, NextCell) then
      match LazyChain(s, ts + 19 + |NextCell|, Terminators)
      case Some((groups, e)) =>
        MatchSpellsRender(s, p, groups, e);
        Some((Row(s[ts..ts + 19], groups[1], groups[2], groups[4]), e))
      case None => None
    else
      None
  }

  /** `findall` from position `p` on: every match, in document order, the
      search resuming just past each match. */
  function FindAll(s: string, p: nat): (rows: seq<Row>)
    requires p <= |s|
    ensures forall i :: 0 <= i < |rows| ==> WellShaped(rows[i])
    decreases |s| - p
  {
    if p == |s| then []
    else
      match MatchAt(s, p)
      case Some((row, e)) => [row] + FindAll(s, e)
      case None => FindAll(s, p + 1)
  }

  /** Whatever surrounds them, every row `findall` returns is the text of
      some span of the page after `p`, rendered with the class attributes the
      pattern skipped. */
  lemma {:induction false} FindAllRowsAreRendered(s: string, p: nat)
    requires p <= |s|
    ensures forall row :: row in FindAll(s, p) ==>
      exists q, e, sc, mc :: p <= q < e <= |s| && s[q..e] == Render(Listing(row, sc, mc))
    decreases |s| - p
  {
    if p < |s| {
      match MatchAt(s, p)
      case Some((row, e)) =>
        FindAllRowsAreRendered(s, e);
        assert FindAll(s, p) == [row] + FindAll(s, e);
      case None =>
        FindAllRowsAreRendered(s, p + 1);
    }
  }

  /** The rows of one listing page. Every captured timestamp has the shape
      `DD-MM-YYYY HH:MM:SS` and no captured field holds a newline. */
  function Extract(html: string): (rows: seq<Row>)
    ensures forall i :: 0 <= i < |rows| ==> WellShaped(rows[i])
  {
    FindAll(html, 0)
  }

  // ---------------------------------------------------------------------
  // The markup of one row, and extraction as its inverse

  /** One table row as the listing renders it: the row and the two class
      attributes the pattern does not capture. */
  datatype Listing = Listing(row: Row, serviceClass: string, messageClass: string)

  /** `fields[0] lits[0] fields[1] lits[1] ...` */
  function Interleave(fields: seq<string>, lits: seq<string>): string
    requires |fields| == |lits|
  {
    if fields == [] then [] else fields[0] + lits[0] + Interleave(fields[1..], lits[1..])
  }

  function Groups(l: Listing): seq<string>
  {
    [l.serviceClass, l.row.service, l.row.region, l.messageClass, l.row.message]
  }

  function Render(l: Listing): string
  {
    OpenCell + l.row.timestamp + NextCell + l.serviceClass + AttrEnd + l.row.service + RegionCell
    + l.row.region + NextCell + l.messageClass + AttrEnd + l.row.message + CloseCell
  }

  /** After the timestamp cell, a rendered row is its five groups, each
      followed by its terminator. */
  lemma RenderInterleaves(l: Listing)
    ensures Render(l) == OpenCell + l.row.timestamp + NextCell + Interleave(Groups(l), Terminators)
  {
    var g, t := Groups(l), Terminators;
    var i4 := l.row.message + CloseCell;
    assert g[4..][1..] == [] && t[4..][1..] == [];
    assert Interleave(g[4..], t[4..]) == i4;
    var i3 := l.messageClass + AttrEnd + i4;
    assert g[3..][1..] == g[4..] && t[3..][1..] == t[4..];
    assert Interleave(g[3..], t[3..]) == i3;
    var i2 := l.row.region + NextCell + i3;
    assert g[2..][1..] == g[3..] && t[2..][1..] == t[3..];
    assert Interleave(g[2..], t[2..]) == i2;
    var i1 := l.row.service + RegionCell + i2;
    assert g[1..][1..] == g[2..] && t[1..][1..] == t[2..];
    assert Interleave(g[1..], t[1..]) == i1;
    assert Interleave(g, t) == l.serviceClass + AttrEnd + i1;
  }

  function RenderPage(ls: seq<Listing>): string
  {
    if ls == [] then [] else Render(ls[0]) + RenderPage(ls[1..])
  }

  function Rows(ls: seq<Listing>): seq<Row>
  {
    seq(|ls|, i requires 0 <= i < |ls| => ls[i].row)
  }

  /** Markup that the pattern reads back unambiguously: a timestamp of the right
      shape, class attributes without a quote, text without a `<`, and nothing
      with a newline. */
  predicate Renderable(l: Listing)
  {
    TimestampShape(l.row.timestamp)
    && '"' !in l.serviceClass && '"' !in l.messageClass
    && '<' !in l.row.service && '<' !in l.row.region && '<' !in l.row.message
    && forall k :: 0 <= k < 5 ==> '\n' !in Groups(l)[k]
  }

  /** The text a match spans is the rendering of the row it captures, with
      the two class attributes it skipped. */
  lemma MatchSpellsRender(s: string, p: nat, groups: seq<string>, e: nat)
    requires LitAt(s, p, OpenCell) && p + |OpenCell| + 19 <= |s| && LitAt(s, p + |OpenCell| + 19, NextCell)
    requires |groups| == 5 && p + |OpenCell| + 19 + |NextCell| <= e <= |s|
    requires s[p + |OpenCell| + 19 + |NextCell|..e] == Interleave(groups, Terminators)
    ensures var ts := p + |OpenCell|;
      s[p..e] == Render(Listing(Row(s[ts..ts + 19], groups[1], groups[2], groups[4]), groups[0], groups[3]))
  {
    var ts := p + |OpenCell|;
    var g := ts + 19 + |NextCell|;
    var l := Listing(Row(s[ts..ts + 19], groups[1], groups[2], groups[4]), groups[0], groups[3]);
    RenderInterleaves(l);
    assert Groups(l) == groups;
    assert s[p..e] == s[p..ts] + s[ts..ts + 19] + s[ts + 19..g] + s[g..e];
  }

  lemma {:induction false} SliceOfConcat(s: string, p: nat, a: string, b: string)
    requires p + |a + b| <= |s| && s[p..p + |a + b|] == a + b
    ensures s[p..p + |a|] == a && s[p + |a|..p + |a| + |b|] == b
  {
    assert s[p..p + |a|] == s[p..p + |a + b|][..|a|];
    assert s[p + |a|..p + |a| + |b|] == s[p..p + |a + b|][|a|..];
  }

  /** While the lazy group is still inside the field `f`, no terminator can
      start (the field lacks the terminator's first character) and no newline
      stops it; at the field's end the terminator and the rest match. */
  lemma {:induction false} LazyFromField(s: string, p: nat, j: nat, lits: seq<string>, f: string, groups: seq<string>, e: nat)
    requires lits != [] && lits[0] != []
    requires p <= j <= p + |f| && p + |f| <= |s| && s[p..p + |f|] == f
    requires '\n' !in f && lits[0][0] !in f
    requires LitAt(s, p + |f|, lits[0])
    requires LazyChain(s, p + |f| + |lits[0]|, lits[1..]) == Some((groups, e))
    ensures '\n' !in s[p..j]
    ensures LazyFrom(s, p, j, lits) == Some(([f] + groups, e))
    decreases p + |f| - j
  {
    assert s[p..j] == f[..j - p];
    if j < p + |f| {
      assert s[j] == f[j - p];
      assert !LitAt(s, j, lits[0]);
      LazyFromField(s, p, j + 1, lits, f, groups, e);
    }
  }

  lemma {:induction false} LazyChainInterleave(s: string, p: nat, fields: seq<string>, lits: seq<string>)
    requires |fields| == |lits|
    requires forall k :: 0 <= k < |lits| ==> lits[k] != [] && '\n' !in fields[k] && lits[k][0] !in fields[k]
    requires p + |Interleave(fields, lits)| <= |s| && s[p..p + |Interleave(fields, lits)|] == Interleave(fields, lits)
    ensures LazyChain(s, p, lits) == Some((fields, p + |Interleave(fields, lits)|))
    decreases |lits|
  {
    if lits != [] {
      var f, l, tail := fields[0], lits[0], Interleave(fields[1..], lits[1..]);
      assert Interleave(fields, lits) == f + (l + tail);
      SliceOfConcat(s, p, f, l + tail);
      SliceOfConcat(s, p + |f|, l, tail);
      var q := p + |f| + |l|;
      LazyChainInterleave(s, q, fields[1..], lits[1..]);
      LazyFromField(s, p, p, lits, f, fields[1..], q + |tail|);
      assert [f] + fields[1..] == fields;
    }
  }

  /** The cells of a rendered row, one after the other in the text. */
  lemma RenderedSlices(s: string, p: nat, l: Listing)
    requires |l.row.timestamp| == 19
    requires p + |Render(l)| <= |s| && s[p..p + |Render(l)|] == Render(l)
    ensures LitAt(s, p, OpenCell) && s[p + |OpenCell|..p + |OpenCell| + 19] == l.row.timestamp
    ensures LitAt(s, p + |OpenCell| + 19, NextCell)
    ensures p + |OpenCell| + 19 + |NextCell| + |Interleave(Groups(l), Terminators)| == p + |Render(l)|
    ensures s[p + |OpenCell| + 19 + |NextCell|..p + |Render(l)|] == Interleave(Groups(l), Terminators)
  {
    var ts := p + |OpenCell|;
    var chain := Interleave(Groups(l), Terminators);
    RenderInterleaves(l);
    assert Render(l) == OpenCell + (l.row.timestamp + (NextCell + chain));
    SliceOfConcat(s, p, OpenCell, l.row.timestamp + (NextCell + chain));
    SliceOfConcat(s, ts, l.row.timestamp, NextCell + chain);
    SliceOfConcat(s, ts + 19, NextCell, chain);
  }

  lemma {:induction false} MatchAtRender(s: string, p: nat, l: Listing)
    requires Renderable(l)
    requires p + |Render(l)| <= |s| && s[p..p + |Render(l)|] == Render(l)
    ensures MatchAt(s, p) == Some((l.row, p + |Render(l)|))
  {
    RenderedSlices(s, p, l);
    LazyChainInterleave(s, p + |OpenCell| + 19 + |NextCell|, Groups(l), Terminators);
  }

  lemma {:induction false} SuffixSplit(s: string, p: nat, a: string, b: string)
    requires p <= |s| && s[p..] == a + b
    ensures p + |a| + |b| == |s| && s[p..p + |a|] == a && s[p + |a|..] == b
  {
    assert s[p..p + |a|] == s[p..][..|a|];
    assert s[p + |a|..] == s[p..][|a|..];
  }

  /** Where a match starts, `findall` records it and resumes past it. */
  lemma FindAllAtMatch(s: string, p: nat, row: Row, e: nat)
    requires p <= |s| && MatchAt(s, p) == Some((row, e))
    ensures FindAll(s, p) == [row] + FindAll(s, e)
  {
  }

  lemma {:induction false} FindAllRenderPage(s: string, p: nat, ls: seq<Listing>)
    requires forall i :: 0 <= i < |ls| ==> Renderable(ls[i])
    requires p <= |s| && s[p..] == RenderPage(ls)
    ensures FindAll(s, p) == Rows(ls)
    decreases |ls|
  {
    if ls != [] {
      var first := Render(ls[0]);
      SuffixSplit(s, p, first, RenderPage(ls[1..]));
      MatchAtRender(s, p, ls[0]);
      var e := p + |first|;
      FindAllAtMatch(s, p, ls[0].row, e);
      FindAllRenderPage(s, e, ls[1..]);
      RowsCons(ls);
      assert FindAll(s, e) == Rows(ls[1..]);
      assert FindAll(s, p) == [ls[0].row] + FindAll(s, e);
      assert FindAll(s, p) == Rows(ls);
    } else {
      assert |s[p..]| == 0;
      assert FindAll(s, p) == Rows(ls);
    }
  }

  lemma RowsCons(ls: seq<Listing>)
    requires ls != []
    ensures Rows(ls) == [ls[0].row] + Rows(ls[1..])
  {
  }

  /** A position that cannot start a match: the scan moves past it. Text
      without a `<` starts no match, whatever it is. */
  lemma {:induction false} FindAllSkips(s: string, p: nat, q: nat)
    requires p <= q <= |s| && '<' !in s[p..q]
    ensures FindAll(s, p) == FindAll(s, q)
    decreases q - p
  {
    if p < q {
      assert s[p] == s[p..q][0];
      assert !LitAt(s, p, OpenCell);
      assert s[p + 1..q] == s[p..q][1..];
      FindAllSkips(s, p + 1, q);
    }
  }

  /** Extraction inverts rendering: a page made of leading text without a `<`
      followed by rendered rows yields exactly those rows, in order. */
  lemma {:induction false} ExtractRenderPage(prefix: string, ls: seq<Listing>)
    requires '<' !in prefix
    requires forall i :: 0 <= i < |ls| ==> Renderable(ls[i])
    ensures Extract(prefix + RenderPage(ls)) == Rows(ls)
  {
    var s := prefix + RenderPage(ls);
    assert s[0..|prefix|] == prefix;
    FindAllSkips(s, 0, |prefix|);
    assert s[|prefix|..] == RenderPage(ls);
    FindAllRenderPage(s, |prefix|, ls);
  }

  /** The row in the comment above the pattern. The comment elides the
      message cell, so any message without a `<` stands for it; this one is
      of our choosing. */
  const CommentListing := Listing(Row("01-01-2026 22:43:11", "Brandweer", "Brabant Noord", "A1 Ongeval A58"), "Br", "Mdx")

  lemma {:induction false} CommentListingRenderable()
    ensures Renderable(CommentListing)
  {
    CommentTimestampShape();
    CommentFieldsOneLine();
  }

  lemma CommentFieldsOneLine()
    ensures forall k :: 0 <= k < 5 ==> '\n' !in Groups(CommentListing)[k]
  {
    var g := Groups(CommentListing);
    assert g == ["Br", "Brandweer", "Brabant Noord", "Mdx", "A1 Ongeval A58"];
  }

  lemma CommentTimestampShape()
    ensures TimestampShape(CommentListing.row.timestamp)
  {
  }

  // The four cells of the example row, one at a time.
  const CommentCells: seq<string> := ["<td class=\"DT\">01-01-2026 22:43:11</td><td class=\"", "Br\">Brandweer</td><td class=\"Regio\">",
                                      "Brabant Noord</td><td class=\"Mdx\">", "A1 Ongeval A58</td>"]

  lemma CommentCell0() ensures CommentCells[0] == OpenCell + CommentListing.row.timestamp + NextCell {}
  lemma CommentCell1() ensures CommentCells[1] == CommentListing.serviceClass + AttrEnd + CommentListing.row.service + RegionCell {}
  lemma CommentCell2() ensures CommentCells[2] == CommentListing.row.region + NextCell + CommentListing.messageClass + AttrEnd {}
  lemma CommentCell3() ensures CommentCells[3] == CommentListing.row.message + CloseCell {}

  /** A rendered row, cell by cell. */
  lemma RenderCells(l: Listing)
    ensures Render(l) == (OpenCell + l.row.timestamp + NextCell) + (l.serviceClass + AttrEnd + l.row.service + RegionCell)
                         + (l.row.region + NextCell + l.messageClass + AttrEnd) + (l.row.message + CloseCell)
  {
  }

  lemma {:induction false} CommentListingMarkup()
    ensures RenderPage([CommentListing]) == CommentCells[0] + CommentCells[1] + CommentCells[2] + CommentCells[3]
  {
    var l := CommentListing;
    assert RenderPage([l]) == Render(l) + RenderPage([]);
    RenderCells(l);
    CommentCell0();
    CommentCell1();
    CommentCell2();
    CommentCell3();
  }

  /** The example row extracts to exactly its four fields (the markup is
      written in four pieces, cell by cell). */
  lemma {:induction false} CommentExample()
    ensures Extract("<td class=\"DT\">01-01-2026 22:43:11</td><td class=\"" + "Br\">Brandweer</td><td class=\"Regio\">"
                    + "Brabant Noord</td><td class=\"Mdx\">" + "A1 Ongeval A58</td>")
         == [Row("01-01-2026 22:43:11", "Brandweer", "Brabant Noord", "A1 Ongeval A58")]
  {
    CommentListingRenderable();
    CommentListingMarkup();
    ExtractRenderPage("", [CommentListing]);
    assert "" + RenderPage([CommentListing]) == RenderPage([CommentListing]);
    assert Rows([CommentListing]) == [CommentListing.row];
  }
}
