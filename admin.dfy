/** The admin dashboard (client/src/pages/admin.tsx) over the profiles the
    listing sends: the CSV export, the pending queue, the five most recent
    profiles and the status tallies. A profile arrives as a JSON object, a
    sequence of key/value pairs in the server's key order. */
module Admin {
  import opened Wrappers
  import opened Text
  import opened Schema
  import Ordering
  import Routes
  import Storage

  /** The JSON values a profile's fields take. */
  datatype Json = JNull | JNumber(n: int) | JString(s: string)

  type JsonObject = seq<(string, Json)>

  /** `String(v ?? "")`: null becomes the empty string. */
  function StringOf(v: Json): (s: string)
    ensures v.JNull? ==> s == ""
    ensures v.JString? ==> s == v.s
  {
    match v
    case JNull => ""
    case JNumber(n) => IntToString(n)
    case JString(s) => s
  }

  /** `p[key]`: the value of the first pair with that key. */
  function Get(p: JsonObject, key: string): (r: Option<Json>)
    ensures r.None? <==> forall i :: 0 <= i < |p| ==> p[i].0 != key
    ensures r.Some? ==> exists i :: 0 <= i < |p| && p[i] == (key, r.value)
  {
    if p == [] then None
    else if p[0].0 == key then Some(p[0].1)
    else
      var r := Get(p[1..], key);
      assert r.Some? ==> exists i :: 0 <= i < |p[1..]| && p[1..][i] == (key, r.value);
      r
  }

  // ------------------------------------------------------------------- CSV

  /** `.replace(/"/g, '""')`: every quote doubled, nothing else changed. */
  function Escape(s: string): (r: string)
    ensures |r| == |s| + Count(s, '"')
  {
    if s == [] then []
    else (if s[0] == '"' then "\"\"" else [s[0]]) + Escape(s[1..])
  }

  /** A field as the export writes it: in quotes, inner quotes doubled. */
  function Quote(s: string): (r: string)
    ensures |r| >= 2 && r[0] == '"' && r[|r| - 1] == '"'
  {
    "\"" + Escape(s) + "\""
  }

  function QuoteAll(vs: seq<string>): (r: seq<string>)
    ensures |r| == |vs|
    ensures forall i :: 0 <= i < |vs| ==> r[i] == Quote(vs[i])
  {
    if vs == [] then [] else [Quote(vs[0])] + QuoteAll(vs[1..])
  }

  function Keys(p: JsonObject): (r: seq<string>)
    ensures |r| == |p| && forall i :: 0 <= i < |p| ==> r[i] == p[i].0
  {
    if p == [] then [] else [p[0].0] + Keys(p[1..])
  }

  function Texts(p: JsonObject): (r: seq<string>)
    ensures |r| == |p| && forall i :: 0 <= i < |p| ==> r[i] == StringOf(p[i].1)
  {
    if p == [] then [] else [StringOf(p[0].1)] + Texts(p[1..])
  }

  /** `Object.keys(p).join(",")`. */
  function Header(p: JsonObject): string {
    Join(Keys(p), ",")
  }

  /** One data record: each value as `String(v ?? "")`, quoted, joined by `,`. */
  function Record(p: JsonObject): string {
    Join(QuoteAll(Texts(p)), ",")
  }

  function Records(ps: seq<JsonObject>): (r: seq<string>)
    ensures |r| == |ps| && forall i :: 0 <= i < |ps| ==> r[i] == Record(ps[i])
  {
    if ps == [] then [] else [Record(ps[0])] + Records(ps[1..])
  }

  /** `handleExportCSV`: nothing for an empty list; otherwise the first
      profile's keys as the header record, then one record per profile, all
      joined with a line feed. */
  function ExportCsv(ps: seq<JsonObject>): (csv: Option<string>)
    ensures csv.None? <==> ps == []
    ensures csv.Some? ==> csv.value == Header(ps[0]) + "\n" + Join(Records(ps), "\n")
  {
    if ps == [] then None
    else
      JoinCons(Header(ps[0]), Records(ps), "\n");
      Some(Join([Header(ps[0])] + Records(ps), "\n"))
  }

  // A reader for what the export writes, after section 2 of RFC 4180: a
  // field is enclosed in double quotes, and a double quote inside it is
  // written as two; records end at a line feed.

  /** Reads a quoted field's content, the opening quote already consumed:
      up to the first quote not followed by another, each doubled quote
      standing for one. Gives the content and what follows the closing quote. */
  function ReadQuoted(s: string): (r: Option<(string, string)>)
    ensures r.Some? ==> |r.value.1| < |s|
    decreases |s|
  {
    if s == [] then None
    else if s[0] == '"' then
      if |s| >= 2 && s[1] == '"' then
        match ReadQuoted(s[2..])
        case None => None
        case Some((c, rest)) => Some(("\"" + c, rest))
      else Some(([], s[1..]))
    else
      match ReadQuoted(s[1..])
      case None => None
      case Some((c, rest)) => Some(([s[0]] + c, rest))
  }

  /** Reads one record of quoted fields separated by commas, up to the end of
      the text or a line feed, which it leaves unread. */
  function ReadFields(s: string): (r: Option<(seq<string>, string)>)
    ensures r.Some? ==> |r.value.1| < |s|
    decreases |s|
  {
    if s == [] || s[0] != '"' then None
    else
      match ReadQuoted(s[1..])
      case None => None
      case Some((c, rest)) =>
        if rest != [] && rest[0] == ',' then
          match ReadFields(rest[1..])
          case None => None
          case Some((cs, tail)) => Some(([c] + cs, tail))
        else if rest == [] || rest[0] == '\n' then Some(([c], rest))
        else None
  }

  /** Reads records separated by line feeds until the text ends. */
  function ReadRecords(s: string): Option<seq<seq<string>>>
    decreases |s|
  {
    match ReadFields(s)
    case None => None
    case Some((fields, rest)) =>
      if rest == [] then Some([fields])
      else
        match ReadRecords(rest[1..])
        case None => None
        case Some(more) => Some([fields] + more)
  }

  /** Unquoting an escaped field gives back the text, whatever it contains,
      when what follows the closing quote is not another quote. */
  lemma {:induction false} ReadQuotedEscape(s: string, rest: string)
    requires rest == [] || rest[0] != '"'
    ensures ReadQuoted(Escape(s) + "\"" + rest) == Some((s, rest))
  {
    var t := Escape(s) + "\"" + rest;
    if s == [] {
      assert t == "\"" + rest;
    } else {
      ReadQuotedEscape(s[1..], rest);
      var tail := Escape(s[1..]) + "\"" + rest;
      if s[0] == '"' {
        assert t == "\"\"" + tail;
        assert t[2..] == tail;
        assert "\"" + s[1..] == s;
      } else {
        assert t == [s[0]] + tail;
        assert t[1..] == tail;
        assert [s[0]] + s[1..] == s;
      }
    }
  }

  /** The last field of a record. */
  lemma ReadFieldsLast(v: string, tail: string)
    requires tail == [] || tail[0] == '\n'
    ensures ReadFields(Quote(v) + tail) == Some(([v], tail))
  {
    var s := Quote(v) + tail;
    assert s[1..] == Escape(v) + "\"" + tail;
    ReadQuotedEscape(v, tail);
  }

  /** A field followed by a comma: the reader goes on with the rest. */
  lemma ReadFieldsCons(v: string, more: string)
    ensures ReadFields(Quote(v) + "," + more) ==
      match ReadFields(more)
      case None => None
      case Some((cs, tail)) => Some(([v] + cs, tail))
  {
    var s := Quote(v) + "," + more;
    assert s[1..] == Escape(v) + "\"" + ("," + more);
    ReadQuotedEscape(v, "," + more);
    assert ("," + more)[1..] == more;
  }

  /** A record written from at least one text reads back as those texts,
      stopping at the end of the text or at a line feed. */
  lemma {:induction false} ReadFieldsOfRecord(vs: seq<string>, tail: string)
    requires |vs| >= 1
    requires tail == [] || tail[0] == '\n'
    ensures ReadFields(Join(QuoteAll(vs), ",") + tail) == Some((vs, tail))
  {
    var q := QuoteAll(vs);
    if |vs| == 1 {
      assert Join(q, ",") == Quote(vs[0]);
      ReadFieldsLast(vs[0], tail);
      assert [vs[0]] == vs;
    } else {
      var more := Join(QuoteAll(vs[1..]), ",") + tail;
      assert q == [Quote(vs[0])] + QuoteAll(vs[1..]);
      JoinCons(Quote(vs[0]), QuoteAll(vs[1..]), ",");
      assert Join(q, ",") + tail == Quote(vs[0]) + "," + more;
      ReadFieldsCons(vs[0], more);
      ReadFieldsOfRecord(vs[1..], tail);
      assert [vs[0]] + vs[1..] == vs;
    }
  }

  /** The records the export writes for a list of text rows. */
  function RowRecords(rows: seq<seq<string>>): (r: seq<string>)
    ensures |r| == |rows| && forall i :: 0 <= i < |rows| ==> r[i] == Join(QuoteAll(rows[i]), ",")
  {
    if rows == [] then [] else [Join(QuoteAll(rows[0]), ",")] + RowRecords(rows[1..])
  }

  /** Records joined by line feeds read back as the rows they were written
      from, quotes, commas and line feeds inside the texts included. */
  lemma {:induction false} ReadRecordsOfRows(rows: seq<seq<string>>)
    requires |rows| >= 1
    requires forall i :: 0 <= i < |rows| ==> |rows[i]| >= 1
    ensures ReadRecords(Join(RowRecords(rows), "\n")) == Some(rows)
  {
    var recs := RowRecords(rows);
    if |rows| == 1 {
      ReadFieldsOfRecord(rows[0], []);
      assert Join(recs, "\n") == recs[0] == recs[0] + [];
      assert [rows[0]] == rows;
    } else {
      var more := Join(RowRecords(rows[1..]), "\n");
      assert recs == [recs[0]] + RowRecords(rows[1..]);
      JoinCons(recs[0], RowRecords(rows[1..]), "\n");
      assert Join(recs, "\n") == recs[0] + ("\n" + more);
      ReadFieldsOfRecord(rows[0], "\n" + more);
      ReadRecordsOfRows(rows[1..]);
      assert ("\n" + more)[1..] == more;
      assert [rows[0]] + rows[1..] == rows;
    }
  }

  /** The texts of each profile, as the export writes them. */
  function AllTexts(ps: seq<JsonObject>): (r: seq<seq<string>>)
    ensures |r| == |ps| && forall i :: 0 <= i < |ps| ==> r[i] == Texts(ps[i])
  {
    if ps == [] then [] else [Texts(ps[0])] + AllTexts(ps[1..])
  }

  /** The export's round trip: after the header line, reading the records
      back gives, for each profile in order, `String(v ?? "")` of each of its
      values in order. */
  lemma ExportReadsBack(ps: seq<JsonObject>)
    requires ps != []
    requires forall i :: 0 <= i < |ps| ==> |ps[i]| >= 1
    ensures ExportCsv(ps) == Some(Header(ps[0]) + "\n" + Join(Records(ps), "\n"))
    ensures ReadRecords(Join(Records(ps), "\n")) == Some(AllTexts(ps))
  {
    var rows := AllTexts(ps);
    assert RowRecords(rows) == Records(ps);
    ReadRecordsOfRows(rows);
  }

  /** The header is the first profile's keys: when none holds a comma, it
      splits back into them, and when none holds a line feed, it is one line. */
  lemma HeaderReadsBack(p: JsonObject)
    requires |p| >= 1
    requires forall i :: 0 <= i < |p| ==> ',' !in p[i].0
    ensures Split(Header(p), ',') == Keys(p)
  {
    SplitJoin(Keys(p), ',');
  }

  // ----------------------------------------------------------- dashboards

  predicate HasStatus(p: JsonObject, status: string) {
    Get(p, "status") == Some(JString(status))
  }

  /** `profiles.filter(p => p.status === status)`. */
  function WithStatus(ps: seq<JsonObject>, status: string): (r: seq<JsonObject>)
    ensures |r| <= |ps|
  {
    if ps == [] then []
    else
      var rest := WithStatus(ps[1..], status);
      if HasStatus(ps[0], status) then [ps[0]] + rest else rest
  }

  /** The filter keeps exactly the profiles with that status. */
  lemma {:induction false} WithStatusMembers(ps: seq<JsonObject>, status: string, p: JsonObject)
    ensures p in WithStatus(ps, status) <==> p in ps && HasStatus(p, status)
  {
    if ps != [] {
      WithStatusMembers(ps[1..], status, p);
      assert ps == [ps[0]] + ps[1..];
    }
  }

  /** `pendingProfiles`. */
  function PendingProfiles(ps: seq<JsonObject>): seq<JsonObject> {
    WithStatus(ps, "Pending")
  }

  /** The filter keeps the original order: filtering a concatenation is
      concatenating the filtered parts. */
  lemma {:induction false} WithStatusAppend(a: seq<JsonObject>, b: seq<JsonObject>, status: string)
    ensures WithStatus(a + b, status) == WithStatus(a, status) + WithStatus(b, status)
  {
    if a == [] {
      assert a + b == b;
    } else {
      var x := if HasStatus(a[0], status) then [a[0]] else [];
      WithStatusAppend(a[1..], b, status);
      assert (a + b)[1..] == a[1..] + b;
      calc {
        WithStatus(a + b, status);
        x + WithStatus(a[1..] + b, status);
        x + (WithStatus(a[1..], status) + WithStatus(b, status));
        (x + WithStatus(a[1..], status)) + WithStatus(b, status);
        WithStatus(a, status) + WithStatus(b, status);
      }
    }
  }

  lemma {:induction false} NoneWithStatus(ps: seq<JsonObject>, status: string)
    requires forall p :: p in ps ==> !HasStatus(p, status)
    ensures WithStatus(ps, status) == []
  {
    if ps != [] {
      assert ps[0] in ps;
      NoneWithStatus(ps[1..], status);
    }
  }

  /** A dashboard count: `profiles.filter(p => p.status === status).length`. */
  function Tally(ps: seq<JsonObject>, status: string): nat {
    |WithStatus(ps, status)|
  }

  /** When every profile is Pending, Verified or Rejected, the three counts
      add up to the total. */
  lemma {:induction false} TalliesAddUp(ps: seq<JsonObject>)
    requires forall p :: p in ps ==>
      HasStatus(p, "Pending") || HasStatus(p, "Verified") || HasStatus(p, "Rejected")
    ensures Tally(ps, "Pending") + Tally(ps, "Verified") + Tally(ps, "Rejected") == |ps|
  {
    if ps != [] {
      assert ps[0] in ps;
      TalliesAddUp(ps[1..]);
    }
  }

  /** `[...profiles].sort(newest first).slice(0, 5)`. `time` stands for
      `+new Date(p.createdAt)`. The list is at most five long, newest first,
      and drawn from the profiles. */
  function RecentProfiles(ps: seq<JsonObject>, time: JsonObject -> int): (r: seq<JsonObject>)
    ensures |r| == if |ps| < 5 then |ps| else 5
    ensures Ordering.SortedDesc(r, time)
    ensures forall p :: p in r ==> p in ps
    ensures multiset(r) <= multiset(ps)
  {
    var sorted := Ordering.NewestFirst(ps, time);
    var r := sorted[..if |ps| < 5 then |ps| else 5];
    PrefixMultiset(sorted, |r|);
    forall p | p in r ensures p in ps {
      assert p in multiset(r);
    }
    r
  }

  /** A prefix holds no element more often than the whole sequence. */
  lemma PrefixMultiset(s: seq<JsonObject>, k: int)
    requires 0 <= k <= |s|
    ensures multiset(s[..k]) <= multiset(s)
  {
    assert s == s[..k] + s[k..];
    assert multiset(s) == multiset(s[..k]) + multiset(s[k..]);
  }

  /** A profile left out of the recent list is no newer than any profile in
      it. */
  lemma RecentAreNewest(ps: seq<JsonObject>, time: JsonObject -> int, q: JsonObject)
    requires q in ps && q !in RecentProfiles(ps, time)
    ensures forall p :: p in RecentProfiles(ps, time) ==> time(p) >= time(q)
  {
    var sorted := Ordering.NewestFirst(ps, time);
    var k := if |ps| < 5 then |ps| else 5;
    assert q in multiset(sorted);
    var j :| 0 <= j < |sorted| && sorted[j] == q;
    assert j >= k;
    assert q in sorted[k..] by {
      assert sorted[k..][j - k] == q;
    }
    forall p | p in RecentProfiles(ps, time) ensures time(p) >= time(q) {
      Ordering.PrefixIsNewest(sorted, time, k, p, q);
    }
  }

  // ------------------------------------------------- the server's profiles

  function TextOr(v: Option<string>): Json {
    if v.Some? then JString(v.value) else JNull
  }

  /** A stored row as the listing sends it: the table's columns in order.
      `createdAt` is sent as the text `stamp`. */
  function ToJson(p: Profile, stamp: string): (o: JsonObject)
    ensures Keys(o) == Columns
  {
    [ ("id", JString(p.id)), ("name", JString(p.name)), ("email", JString(p.email)),
      ("phone", TextOr(p.phone)), ("address", TextOr(p.address)),
      ("age", if p.age.Some? then JNumber(p.age.value) else JNull),
      ("profession", JString(p.profession)), ("experience", TextOr(p.experience)),
      ("skills", TextOr(p.skills)), ("education", TextOr(p.education)),
      ("workExperience", TextOr(p.workExperience)), ("achievements", TextOr(p.achievements)),
      ("profilePhoto", TextOr(p.profilePhoto)), ("slug", JString(p.slug)),
      ("createdAt", JString(stamp)) ]
  }

  /** The profiles the server sends have no `status`: the pending queue is
      empty and every tally is 0, whatever is stored. */
  lemma ServerProfilesHaveNoStatus(rows: seq<Profile>, stamps: seq<string>, status: string)
    requires |stamps| == |rows|
    ensures var ps := seq(|rows|, i requires 0 <= i < |rows| => ToJson(rows[i], stamps[i]));
      PendingProfiles(ps) == [] && Tally(ps, status) == 0
  {
    var ps := seq(|rows|, i requires 0 <= i < |rows| => ToJson(rows[i], stamps[i]));
    forall p: JsonObject | p in ps ensures Get(p, "status").None? {
      var i :| 0 <= i < |rows| && ps[i] == p;
      assert Keys(p) == Columns;
      assert forall j :: 0 <= j < |p| ==> p[j].0 != "status";
    }
    NoneWithStatus(ps, "Pending");
    NoneWithStatus(ps, status);
  }

  /** The exported header of the server's profiles is the column list. */
  lemma ServerHeader(p: Profile, stamp: string)
    ensures Header(ToJson(p, stamp)) == Join(Columns, ",")
  {
  }

  /** The dashboard's request to `/api/profiles`: `search` and `status` when
      they are set, and never a page or a limit. */
  function DashboardQuery(search: string, status: string): (q: map<string, string>)
    ensures "page" !in q && "limit" !in q
    ensures Lookup(q, "search") == (if search == "" then None else Some(search))
    ensures Lookup(q, "status") == (if status == "" then None else Some(status))
  {
    (if search == "" then map[] else map["search" := search])
    + (if status == "" then map[] else map["status" := status])
  }

  /** Without a page or a limit the server answers with its defaults, so the
      dashboard only ever receives the 12 newest matching profiles: its list,
      its tallies and its export leave out the rest. */
  lemma DashboardSeesFirstPage(store: Storage.ProfileStore, search: string, status: string)
    ensures var q := DashboardQuery(search, status);
      Routes.PageParam(q) == 1 && Routes.LimitParam(q) == 12
    ensures var r := store.GetAllProfiles(1, 12, Lookup(DashboardQuery(search, status), "search"));
      r.Success? && |r.value.profiles| == Storage.Min(12, r.value.total)
  {
  }
}
