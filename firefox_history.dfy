/** The Firefox history exporter: rows of the `moz_places` ⋈
    `moz_historyvisits` query grouped into one entry per URL. */
module FirefoxHistory {
  import opened Wrappers

  /** One result row `(url, title, visit_count, visit_date)`; SQL NULL is None.
      `visitDate` is the raw microsecond value. */
  datatype Row = Row(url: Option<string>, title: Option<string>, visitCount: Option<int>, visitDate: Option<int>)

  /** One exported entry. `kind` is the JSON field "type"; `timestamps`
      holds the visit dates of the URL's rows, in row order. */
  datatype Entry = Entry(kind: string, url: string, title: string, timestamps: seq<int>, visitCount: Option<int>)

  /** The `defaultdict` factory's value. */
  const Fresh := Entry("browser", "", "", [], Some(0))

  /** `not url or not visit_date` is false: both are present and truthy. */
  predicate Kept(r: Row) {
    r.url.Some? && r.url.value != "" && r.visitDate.Some? && r.visitDate.value != 0
  }

  /** The row is kept and belongs to `url`. */
  predicate Matches(r: Row, url: string) {
    Kept(r) && r.url.value == url
  }

  /** Some kept row belongs to `url`. */
  predicate HasRow(rows: seq<Row>, url: string) {
    exists k :: 0 <= k < |rows| && Matches(rows[k], url)
  }

  lemma HasRowSnoc(rows: seq<Row>, r: Row)
    ensures forall u :: HasRow(rows + [r], u) <==> HasRow(rows, u) || Matches(r, u)
  {
    forall u ensures HasRow(rows + [r], u) <==> HasRow(rows, u) || Matches(r, u) {
      if HasRow(rows, u) {
        var k :| 0 <= k < |rows| && Matches(rows[k], u);
        assert (rows + [r])[k] == rows[k];
      }
      if Matches(r, u) {
        assert (rows + [r])[|rows|] == r;
      }
      if HasRow(rows + [r], u) {
        var k :| 0 <= k < |rows| + 1 && Matches((rows + [r])[k], u);
        if k < |rows| {
          assert (rows + [r])[k] == rows[k];
        }
      }
    }
  }

  /** The URLs of the kept rows, each once, in order of first appearance
      (the key order of the dictionary). */
  function Urls(rows: seq<Row>): (us: seq<string>)
    ensures forall i, j :: 0 <= i < j < |us| ==> us[i] != us[j]
    ensures forall u :: u in us <==> HasRow(rows, u)
    ensures forall u :: u in us ==> u != ""
  {
    if rows == [] then []
    else
      var init := rows[..|rows| - 1];
      var r := rows[|rows| - 1];
      assert rows == init + [r];
      HasRowSnoc(init, r);
      var us := Urls(init);
      if Kept(r) && r.url.value !in us then us + [r.url.value] else us
  }

  /** The visit dates of the rows of `url`, in row order. */
  function Visits(rows: seq<Row>, url: string): (ts: seq<int>)
    ensures |ts| <= |rows|
    ensures ts == [] <==> !HasRow(rows, url)
    ensures forall t :: t in ts ==> exists k :: 0 <= k < |rows| && Matches(rows[k], url) && rows[k].visitDate.value == t
  {
    if rows == [] then []
    else
      var init := rows[..|rows| - 1];
      var r := rows[|rows| - 1];
      assert rows == init + [r];
      HasRowSnoc(init, r);
      Visits(init, url) + if Matches(r, url) then [r.visitDate.value] else []
  }

  /** The index of the first row of `url`, if any. */
  function FirstRow(rows: seq<Row>, url: string): (k: Option<nat>)
    ensures k.Some? ==> (k.value < |rows| && Matches(rows[k.value], url)
                         && forall j :: 0 <= j < k.value ==> !Matches(rows[j], url))
    ensures k.None? ==> forall j :: 0 <= j < |rows| ==> !Matches(rows[j], url)
  {
    if rows == [] then None
    else
      var init := rows[..|rows| - 1];
      var r := rows[|rows| - 1];
      assert rows == init + [r];
      var k := FirstRow(init, url);
      if k.Some? then k
      else if Matches(r, url) then Some(|rows| - 1)
      else None
  }

  /** The entry of `url`: metadata of its first row, one timestamp per row. */
  function EntryOf(rows: seq<Row>, url: string): Entry {
    match FirstRow(rows, url)
    case None => Fresh
    case Some(k) => Entry("browser", url, rows[k].title.GetOr(""), Visits(rows, url), rows[k].visitCount)
  }

  /** The exported list: one entry per URL, in first-appearance order. */
  function Grouped(rows: seq<Row>): (es: seq<Entry>)
    ensures |es| == |Urls(rows)|
    ensures forall i :: 0 <= i < |es| ==> es[i] == EntryOf(rows, Urls(rows)[i])
  {
    var us := Urls(rows);
    seq(|us|, i requires 0 <= i < |us| => EntryOf(rows, us[i]))
  }

  /** `parse_firefox_places` after the query: the grouping loop over the rows
      and the conversion of the dictionary's values to a list. */
  method ParseFirefoxPlaces(rows: seq<Row>) returns (result: seq<Entry>)
    ensures result == Grouped(rows)
  {
    var order: seq<string> := [];      // the dictionary's key order
    var entries: map<string, Entry> := map[];
    for i := 0 to |rows|
      invariant order == Urls(rows[..i])
      invariant forall u :: u in entries <==> u in order
      invariant forall u :: u in entries ==> entries[u] == EntryOf(rows[..i], u)
    {
      var row := rows[i];
      assert rows[..i + 1] == rows[..i] + [row];
      StepFacts(rows[..i], row);
      if !Kept(row) {
        continue;
      }
      var url := row.url.value;
      if url !in entries {
        // `entries[url]` inserts the factory value on first access
        entries := entries[url := Fresh];
        order := order + [url];
      }
      if entries[url].url == "" {
        entries := entries[url := entries[url].(url := url, title := row.title.GetOr(""), visitCount := row.visitCount)];
      }
      entries := entries[url := entries[url].(timestamps := entries[url].timestamps + [row.visitDate.value])];
    }
    assert rows[..|rows|] == rows;
    result := seq(|order|, j requires 0 <= j < |order| => entries[order[j]]);
  }

  /** How one more row changes the specification functions. */
  lemma StepFacts(rows: seq<Row>, row: Row)
    ensures forall u :: (FirstRow(rows, u).Some? <==> u in Urls(rows))
    ensures forall u :: !Matches(row, u) ==> EntryOf(rows + [row], u) == EntryOf(rows, u)
    ensures Kept(row) ==>
              var u := row.url.value;
              && Visits(rows + [row], u) == Visits(rows, u) + [row.visitDate.value]
              && (u in Urls(rows) ==> EntryOf(rows + [row], u) == EntryOf(rows, u).(timestamps := Visits(rows + [row], u)))
              && (u !in Urls(rows) ==>
                    EntryOf(rows + [row], u) == Entry("browser", u, row.title.GetOr(""), [row.visitDate.value], row.visitCount))
  {
    var rows' := rows + [row];
    assert rows'[..|rows'| - 1] == rows;
    forall u ensures FirstRow(rows, u).Some? <==> u in Urls(rows) {
    }
    if Kept(row) {
      var u := row.url.value;
      if u !in Urls(rows) {
        assert Visits(rows, u) == [];
      }
    }
  }

  // ---- Properties of the export ----

  /** Every entry is a browser entry with a non-empty URL and at least one
      timestamp; the URLs are distinct and are exactly those of the kept rows. */
  lemma EntryShape(rows: seq<Row>)
    ensures forall e :: e in Grouped(rows) ==> e.kind == "browser" && e.url != "" && e.timestamps != []
    ensures forall i, j :: 0 <= i < j < |Grouped(rows)| ==> Grouped(rows)[i].url != Grouped(rows)[j].url
    ensures forall k :: 0 <= k < |rows| && Kept(rows[k]) ==>
              exists i :: 0 <= i < |Grouped(rows)| && Grouped(rows)[i].url == rows[k].url.value
    ensures forall i :: 0 <= i < |Grouped(rows)| ==>
              HasRow(rows, Grouped(rows)[i].url)
  {
    var es := Grouped(rows);
    var us := Urls(rows);
    forall i | 0 <= i < |es| ensures es[i].url == us[i] && es[i].kind == "browser" && es[i].timestamps != [] {
      assert us[i] in us;
      var k :| 0 <= k < |rows| && Matches(rows[k], us[i]);
    }
    forall k | 0 <= k < |rows| && Kept(rows[k])
      ensures exists i :: 0 <= i < |es| && es[i].url == rows[k].url.value
    {
      assert Matches(rows[k], rows[k].url.value);
      assert rows[k].url.value in us;
      var i :| 0 <= i < |us| && us[i] == rows[k].url.value;
      assert es[i].url == us[i];
    }
    forall i | 0 <= i < |es| ensures HasRow(rows, es[i].url) {
      assert us[i] in us;
    }
  }

  /** Entries come in the order in which their URLs first appear among the
      kept rows. */
  lemma {:induction false} FirstAppearanceOrder(rows: seq<Row>)
    ensures forall u :: u in Urls(rows) ==> FirstRow(rows, u).Some?
    ensures forall i, j :: 0 <= i < j < |Urls(rows)| ==>
              FirstRow(rows, Urls(rows)[i]).value < FirstRow(rows, Urls(rows)[j]).value
  {
    if rows != [] {
      var init := rows[..|rows| - 1];
      var r := rows[|rows| - 1];
      assert rows == init + [r];
      FirstAppearanceOrder(init);
      var us := Urls(init);
      forall u | u in us ensures FirstRow(rows, u) == FirstRow(init, u) {
        assert HasRow(init, u);
      }
      forall i, j | 0 <= i < j < |Urls(rows)|
        ensures FirstRow(rows, Urls(rows)[i]).value < FirstRow(rows, Urls(rows)[j]).value
      {
        assert Urls(rows)[i] in us;
        if j < |us| {
          assert Urls(rows)[j] in us;
        }
      }
    }
  }

  /** Title and visit count come from the first kept row of the URL; later
      rows never overwrite them. */
  lemma FirstRowMetadata(rows: seq<Row>, i: nat)
    requires i < |Grouped(rows)|
    ensures var e := Grouped(rows)[i];
            exists k :: 0 <= k < |rows| && Matches(rows[k], e.url)
                        && (forall j :: 0 <= j < k ==> !Matches(rows[j], e.url))
                        && e.title == rows[k].title.GetOr("") && e.visitCount == rows[k].visitCount
  {
    var u := Urls(rows)[i];
    assert u in Urls(rows);
    var k :| 0 <= k < |rows| && Matches(rows[k], u);
    assert FirstRow(rows, u).Some?;
  }

  /** The number of kept rows. */
  function KeptCount(rows: seq<Row>): nat {
    if rows == [] then 0
    else KeptCount(rows[..|rows| - 1]) + if Kept(rows[|rows| - 1]) then 1 else 0
  }

  /** The total number of timestamps of the entries of `urls`. */
  function TotalVisits(rows: seq<Row>, urls: seq<string>): nat {
    if urls == [] then 0 else |Visits(rows, urls[0])| + TotalVisits(rows, urls[1..])
  }

  lemma {:induction false} TotalVisitsStep(rows: seq<Row>, row: Row, urls: seq<string>)
    requires forall i, j :: 0 <= i < j < |urls| ==> urls[i] != urls[j]
    ensures TotalVisits(rows + [row], urls)
         == TotalVisits(rows, urls) + if Kept(row) && row.url.value in urls then 1 else 0
  {
    var rows' := rows + [row];
    assert rows'[..|rows'| - 1] == rows;
    if urls != [] {
      TotalVisitsStep(rows, row, urls[1..]);
      if Kept(row) && row.url.value == urls[0] {
        assert urls[0] !in urls[1..];
      }
    }
  }

  lemma TotalVisitsAppend(rows: seq<Row>, urls: seq<string>, u: string)
    ensures TotalVisits(rows, urls + [u]) == TotalVisits(rows, urls) + |Visits(rows, u)|
  {
    if urls != [] {
      assert (urls + [u])[1..] == urls[1..] + [u];
      TotalVisitsAppend(rows, urls[1..], u);
    }
  }

  /** Each kept row contributes exactly one timestamp: the entries hold as
      many timestamps as there are kept rows. */
  lemma {:induction false} TimestampsPerKeptRow(rows: seq<Row>)
    ensures TotalVisits(rows, Urls(rows)) == KeptCount(rows)
  {
    if rows != [] {
      var init := rows[..|rows| - 1];
      var r := rows[|rows| - 1];
      assert rows == init + [r];
      TimestampsPerKeptRow(init);
      var us := Urls(init);
      TotalVisitsStep(init, r, us);
      if Kept(r) && r.url.value !in us {
        TotalVisitsAppend(rows, us, r.url.value);
        assert Visits(init, r.url.value) == [];
      }
    }
  }

  /** The rows of the kept visits are ascending by date (the query's
      ORDER BY). */
  predicate AscendingVisits(rows: seq<Row>) {
    forall i, j :: 0 <= i < j < |rows| && Kept(rows[i]) && Kept(rows[j]) ==>
      rows[i].visitDate.value <= rows[j].visitDate.value
  }

  predicate NonDecreasing(ts: seq<int>) {
    forall i, j :: 0 <= i < j < |ts| ==> ts[i] <= ts[j]
  }

  /** With rows in ascending visit order, every entry's timestamps are
      non-decreasing. */
  lemma {:induction false} TimestampsAscending(rows: seq<Row>, url: string)
    requires AscendingVisits(rows)
    ensures NonDecreasing(Visits(rows, url))
  {
    if rows != [] {
      var init := rows[..|rows| - 1];
      var r := rows[|rows| - 1];
      assert rows == init + [r];
      assert AscendingVisits(init);
      TimestampsAscending(init, url);
      var vs := Visits(init, url);
      if Matches(r, url) {
        forall t | t in vs ensures t <= r.visitDate.value {
          var k :| 0 <= k < |init| && Matches(init[k], url) && init[k].visitDate.value == t;
          assert rows[k] == init[k];
        }
        assert Visits(rows, url) == vs + [r.visitDate.value];
        forall i, j | 0 <= i < j < |vs| + 1
          ensures (vs + [r.visitDate.value])[i] <= (vs + [r.visitDate.value])[j]
        {
          if j == |vs| {
            assert vs[i] in vs;
          }
        }
      }
    }
  }
}
