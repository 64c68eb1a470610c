/** The grouping, schema and row-building part of transform_csv
    (sr_audit.py:163-192), over rows already read from the export: each
    revision is keyed by (Timestamp, User, Operation); its change log is
    split into `field=value` fragments whose values are converted with the
    shared pv_maps cache; a later value for a field overwrites an earlier
    one under the same key; the columns are the sorted field names minus a
    fixed denylist, after five fixed ones. */
module Pivot {
  import opened Wrappers
  import opened Text
  import opened Tokenizer
  import opened Resolver

  /** One row of the audit export, as csv.DictReader gives it. */
  datatype AuditRow = AuditRow(timestamp: string, user: string, operation: string, changeLog: string)

  /** A revision: (Timestamp, User, Operation). */
  datatype Key = Key(timestamp: string, user: string, operation: string)

  function KeyOf(r: AuditRow): Key
  {
    Key(r.timestamp, r.user, r.operation)
  }

  /** The position of the first `=` in `c`, or |c| when there is none. */
  function EqIndex(c: string): (i: nat)
    ensures i <= |c|
  {
    if c == [] || c[0] == '=' then 0 else 1 + EqIndex(c[1..])
  }

  /** The index found is that of the first `=`. */
  lemma {:induction false} EqIndexFirst(c: string)
    ensures EqIndex(c) < |c| ==> c[EqIndex(c)] == '='
    ensures forall k :: 0 <= k < EqIndex(c) ==> c[k] != '='
  {
    if c != [] && c[0] != '=' {
      EqIndexFirst(c[1..]);
    }
  }

  /** A `field=value` fragment, both sides stripped. */
  datatype Assignment = Assignment(field: string, text: string)

  /** A fragment without `=` is dropped; otherwise it is split at its first
      `=` (`c.split("=", 1)`) and both sides are stripped. */
  function ParseAssignment(c: string): Option<Assignment>
  {
    var e := EqIndex(c);
    if e == |c| then None else Some(Assignment(Strip(c[..e]), Strip(c[e + 1..])))
  }

  /** A fragment is kept exactly when it holds a `=`; the field name never
      holds one. */
  lemma ParseAssignmentKept(c: string)
    ensures ParseAssignment(c).Some? <==> '=' in c
    ensures ParseAssignment(c).Some? ==> '=' !in c[..EqIndex(c)]
  {
    EqIndexFirst(c);
    if '=' in c {
      var k :| 0 <= k < |c| && c[k] == '=';
    }
  }

  /** Round trip: a field name with no `=` and no surrounding whitespace,
      written before `=` and a stripped value, is read back as written. */
  lemma ParseAssignmentRoundTrip(f: string, v: string)
    requires '=' !in f && Strip(f) == f && Strip(v) == v
    ensures ParseAssignment(f + "=" + v) == Some(Assignment(f, v))
  {
    var c := f + "=" + v;
    EqIndexFirst(c);
    assert forall k :: 0 <= k < |f| ==> c[k] == f[k];
    assert c[|f|] == '=';
    assert EqIndex(c) == |f|;
    assert c[..|f|] == f && c[|f| + 1..] == v;
  }

  /** The assignments of a change log's fragments, in order; fragments
      without `=` are dropped. */
  function Kept(frags: seq<string>): seq<Assignment>
  {
    if frags == [] then []
    else
      var init := Kept(frags[..|frags| - 1]);
      match ParseAssignment(frags[|frags| - 1])
      case None => init
      case Some(a) => init + [a]
  }

  /** An assignment under the key of its row. */
  datatype Target = Target(key: Key, assign: Assignment)

  /** Assignments, each under `key`. */
  function Under(key: Key, asg: seq<Assignment>): (ts: seq<Target>)
    ensures |ts| == |asg|
  {
    seq(|asg|, i requires 0 <= i < |asg| => Target(key, asg[i]))
  }

  /** The assignments of one row; none when its change log is empty. */
  function RowTargets(r: AuditRow): (ts: seq<Target>)
    ensures forall t :: t in ts ==> t.key == KeyOf(r)
  {
    if r.changeLog == "" then [] else Under(KeyOf(r), Kept(Fragments(r.changeLog)))
  }

  /** The assignments of all rows, in the order the loop meets them. */
  function Targets(rows: seq<AuditRow>): seq<Target>
  {
    if rows == [] then [] else Targets(rows[..|rows| - 1]) + RowTargets(rows[|rows| - 1])
  }

  /** The converted values of a sequence of assignments, the cache threaded
      from one conversion to the next, and the ids sent to the server; each
      value is converted with its field name as the attribute. */
  datatype Conversions = Conversions(values: seq<Option<string>>, cache: map<int, string>, attempts: seq<int>)

  function ConvertAll(ts: seq<Target>, m: map<int, string>, token: string, fetch: Fetcher,
                      parse: string -> Literal): (r: Conversions)
    ensures |r.values| == |ts|
  {
    if ts == [] then Conversions([], m, [])
    else
      var c := ConvertAll(ts[..|ts| - 1], m, token, fetch, parse);
      var a := ts[|ts| - 1].assign;
      var o := Convert(a.text, c.cache, token, a.field, fetch, parse);
      Conversions(c.values + [o.value], o.cache, c.attempts + o.attempts)
  }

  /** One `grouped[key][field] = val`. */
  datatype Write = Write(key: Key, field: string, value: Option<string>)

  function Writes(ts: seq<Target>, values: seq<Option<string>>): (ws: seq<Write>)
    requires |values| == |ts|
    ensures |ws| == |ts|
  {
    seq(|ts|, i requires 0 <= i < |ts| => Write(ts[i].key, ts[i].assign.field, values[i]))
  }

  /** The keys of `grouped` in insertion order: a key is added by the first
      row with that key and a non-empty change log. */
  function Keys(rows: seq<AuditRow>): seq<Key>
  {
    if rows == [] then []
    else
      var ks := Keys(rows[..|rows| - 1]);
      var r := rows[|rows| - 1];
      if r.changeLog == "" || KeyOf(r) in ks then ks else ks + [KeyOf(r)]
  }

  /** `grouped[key]`: each field's last written value under `key`. */
  function Fields(ws: seq<Write>, key: Key): map<string, Option<string>>
  {
    if ws == [] then map[]
    else
      var f := Fields(ws[..|ws| - 1], key);
      var w := ws[|ws| - 1];
      if w.key == key then f[w.field := w.value] else f
  }

  /** `grouped`: every key seen, with its fields (possibly none). */
  function Group(keys: seq<Key>, ws: seq<Write>): map<Key, map<string, Option<string>>>
  {
    map k | k in keys :: Fields(ws, k)
  }

  /** `all_fields`: every field name written. */
  function FieldNames(ws: seq<Write>): set<string>
  {
    set w | w in ws :: w.field
  }

  /** The fields dropped from the schema. */
  const Denylist: set<string> := {"preBarcodedTube", "fixative", "receiver", "source_file"}

  /** The five leading columns of the header. */
  const Fixed: seq<string> := ["Modified Date", "Modified By", "Operation", "Req ID", "Event Label"]

  /** csv.writer writes None as an empty cell. */
  function Cell(v: Option<string>): string
  {
    v.GetOr("")
  }

  /** One output row: the key, the request id and event label, then each
      column's value (`fields.get(f, "")`). */
  function BuildRow(key: Key, fields: map<string, Option<string>>, reqId: string, eventLabel: string,
                    cols: seq<string>): seq<string>
  {
    [key.timestamp, key.user, key.operation, reqId, eventLabel]
    + seq(|cols|, j requires 0 <= j < |cols| => if cols[j] in fields then Cell(fields[cols[j]]) else "")
  }

  /** A row's cell for a field written under its key: the row has the five
      fixed cells and one per column, and the cell holds the value of the
      last write of that field under the key. */
  lemma RowCellWritten(ws: seq<Write>, key: Key, reqId: string, eventLabel: string,
                       cols: seq<string>, i: nat, j: nat)
    requires i < |cols| && j < |ws| && ws[j].key == key && ws[j].field == cols[i]
    requires forall t :: j < t < |ws| ==> ws[t].key != key || ws[t].field != cols[i]
    ensures var row := BuildRow(key, Fields(ws, key), reqId, eventLabel, cols);
            |row| == 5 + |cols| && row[5 + i] == Cell(ws[j].value)
  {
    LastWriteWins(ws, key, cols[i], j);
  }

  /** A row's cell for a field never written under its key is empty. */
  lemma RowCellUnwritten(ws: seq<Write>, key: Key, reqId: string, eventLabel: string,
                         cols: seq<string>, i: nat)
    requires i < |cols|
    requires forall t :: 0 <= t < |ws| ==> ws[t].key != key || ws[t].field != cols[i]
    ensures var row := BuildRow(key, Fields(ws, key), reqId, eventLabel, cols);
            |row| == 5 + |cols| && row[5 + i] == ""
  {
    FieldsDomain(ws, key, cols[i]);
  }

  /** Strictly increasing in Python's string order, hence without repeats. */
  predicate Increasing(xs: seq<string>)
  {
    forall i, j :: 0 <= i < j < |xs| ==> Less(xs[i], xs[j])
  }

  /** `sorted(f for f in all_fields if f not in unwanted_cols)`. */
  ghost predicate IsSchema(cols: seq<string>, fields: set<string>)
  {
    Increasing(cols) && forall f :: f in cols <==> f in fields && f !in Denylist
  }

  /** A key is in `grouped` exactly when some row with a non-empty change
      log carries it. */
  lemma {:induction false} KeysMembers(rows: seq<AuditRow>, k: Key)
    ensures k in Keys(rows) <==> exists j :: 0 <= j < |rows| && rows[j].changeLog != "" && KeyOf(rows[j]) == k
  {
    if rows != [] {
      var n := |rows| - 1;
      KeysMembers(rows[..n], k);
      if k in Keys(rows[..n]) {
        var j :| 0 <= j < n && rows[..n][j].changeLog != "" && KeyOf(rows[..n][j]) == k;
        assert rows[j] == rows[..n][j];
      }
      if exists j :: 0 <= j < |rows| && rows[j].changeLog != "" && KeyOf(rows[j]) == k {
        var j :| 0 <= j < |rows| && rows[j].changeLog != "" && KeyOf(rows[j]) == k;
        if j < n {
          assert rows[..n][j] == rows[j];
        }
      }
    }
  }

  /** One output row per key: no key appears twice. */
  lemma {:induction false} KeysDistinct(rows: seq<AuditRow>)
    ensures forall i, j :: 0 <= i < j < |Keys(rows)| ==> Keys(rows)[i] != Keys(rows)[j]
  {
    if rows != [] {
      var n := |rows| - 1;
      var ks := Keys(rows[..n]);
      KeysDistinct(rows[..n]);
      var r := rows[n];
      if r.changeLog != "" && KeyOf(r) !in ks {
        var ks' := ks + [KeyOf(r)];
        assert Keys(rows) == ks';
        forall i, j | 0 <= i < j < |ks'|
          ensures ks'[i] != ks'[j]
        {
          assert ks'[i] == ks[i];
          if j == |ks| {
            assert ks[i] in ks;
          } else {
            assert ks'[j] == ks[j];
          }
        }
      }
    }
  }

  /** Keys keep the order of their first appearance: the keys of a prefix
      of the rows are a prefix of the keys of all of them. */
  lemma {:induction false} KeysPrefix(rows: seq<AuditRow>, t: nat)
    requires t <= |rows|
    ensures Keys(rows[..t]) <= Keys(rows)
    decreases |rows| - t
  {
    if t < |rows| {
      KeysPrefix(rows, t + 1);
      assert rows[..t + 1][..t] == rows[..t];
    } else {
      assert rows[..t] == rows;
    }
  }

  /** The rows with a non-empty change log, in order. */
  function Logged(rows: seq<AuditRow>): (r: seq<AuditRow>)
    ensures forall x :: x in r ==> x in rows && x.changeLog != ""
  {
    if rows == [] then []
    else
      var init := Logged(rows[..|rows| - 1]);
      var x := rows[|rows| - 1];
      if x.changeLog == "" then init else init + [x]
  }

  /** Rows with an empty change log are skipped entirely: neither their key
      nor any assignment of theirs reaches the result. */
  lemma {:induction false} EmptyLogsSkipped(rows: seq<AuditRow>)
    ensures Targets(rows) == Targets(Logged(rows))
    ensures Keys(rows) == Keys(Logged(rows))
  {
    if rows != [] {
      var n := |rows| - 1;
      EmptyLogsSkipped(rows[..n]);
      var l := Logged(rows);
      if rows[n].changeLog != "" {
        assert l[..|l| - 1] == Logged(rows[..n]);
      } else {
        assert Targets(rows[..n]) + [] == Targets(rows[..n]);
      }
    }
  }

  /** `grouped[key]` holds a field exactly when some write under `key`
      named it. */
  lemma {:induction false} FieldsDomain(ws: seq<Write>, k: Key, f: string)
    ensures f in Fields(ws, k) <==> exists j :: 0 <= j < |ws| && ws[j].key == k && ws[j].field == f
  {
    if ws != [] {
      var n := |ws| - 1;
      FieldsDomain(ws[..n], k, f);
      if f in Fields(ws[..n], k) {
        var j :| 0 <= j < n && ws[..n][j].key == k && ws[..n][j].field == f;
        assert ws[j] == ws[..n][j];
      }
      if exists j :: 0 <= j < |ws| && ws[j].key == k && ws[j].field == f {
        var j :| 0 <= j < |ws| && ws[j].key == k && ws[j].field == f;
        if j < n {
          assert ws[..n][j] == ws[j];
        }
      }
    }
  }

  /** The last write wins: a field's value under a key is the value of the
      last write to that field under that key. */
  lemma {:induction false} LastWriteWins(ws: seq<Write>, k: Key, f: string, j: nat)
    requires j < |ws| && ws[j].key == k && ws[j].field == f
    requires forall t :: j < t < |ws| ==> ws[t].key != k || ws[t].field != f
    ensures f in Fields(ws, k) && Fields(ws, k)[f] == ws[j].value
  {
    var n := |ws| - 1;
    if j < n {
      assert forall t :: j < t < n ==> ws[..n][t] == ws[t];
      LastWriteWins(ws[..n], k, f, j);
    }
  }

  /** The assignments kept from a list of fragments are exactly the
      parses of its fragments that hold a `=`. */
  lemma {:induction false} KeptExact(frags: seq<string>, a: Assignment)
    ensures a in Kept(frags) <==> exists c :: c in frags && ParseAssignment(c) == Some(a)
  {
    if frags != [] {
      var n := |frags| - 1;
      KeptExact(frags[..n], a);
      assert frags == frags[..n] + [frags[n]];
      assert forall c :: c in frags <==> c in frags[..n] || c == frags[n];
    }
  }

  lemma RowTargetsHas(r: AuditRow, a: Assignment)
    requires r.changeLog != "" && a in Kept(Fragments(r.changeLog))
    ensures Target(KeyOf(r), a) in RowTargets(r)
  {
    var asg := Kept(Fragments(r.changeLog));
    var i :| 0 <= i < |asg| && asg[i] == a;
    assert RowTargets(r)[i] == Target(KeyOf(r), a);
  }

  /** The assignments of a prefix of the rows come first. */
  lemma {:induction false} TargetsPrefix(rows: seq<AuditRow>, k: nat)
    requires k <= |rows|
    ensures Targets(rows[..k]) <= Targets(rows)
    decreases |rows| - k
  {
    if k < |rows| {
      TargetsPrefix(rows, k + 1);
      assert rows[..k + 1][..k] == rows[..k];
    } else {
      assert rows[..k] == rows;
    }
  }

  /** Every kept assignment of a row with a non-empty change log is
      grouped under that row's key. */
  lemma TargetsComplete(rows: seq<AuditRow>, j: nat, a: Assignment)
    requires j < |rows| && rows[j].changeLog != "" && a in Kept(Fragments(rows[j].changeLog))
    ensures Target(KeyOf(rows[j]), a) in Targets(rows)
  {
    TargetsAt(rows, j, a);
    TargetsPrefix(rows, j + 1);
    PrefixMember(Targets(rows[..j + 1]), Targets(rows), Target(KeyOf(rows[j]), a));
  }

  lemma TargetsAt(rows: seq<AuditRow>, j: nat, a: Assignment)
    requires j < |rows| && rows[j].changeLog != "" && a in Kept(Fragments(rows[j].changeLog))
    ensures Target(KeyOf(rows[j]), a) in Targets(rows[..j + 1])
  {
    TargetsSnoc(rows, j);
    RowTargetsHas(rows[j], a);
    ConcatMember(Targets(rows[..j]), RowTargets(rows[j]), Target(KeyOf(rows[j]), a));
  }

  lemma TargetsSnoc(rows: seq<AuditRow>, j: nat)
    requires j < |rows|
    ensures Targets(rows[..j + 1]) == Targets(rows[..j]) + RowTargets(rows[j])
  {
    assert rows[..j + 1][..j] == rows[..j];
  }

  lemma ConcatMember<T>(a: seq<T>, b: seq<T>, x: T)
    requires x in b
    ensures x in a + b
  {
    var i :| 0 <= i < |b| && b[i] == x;
    assert (a + b)[|a| + i] == x;
  }

  lemma PrefixMember<T>(p: seq<T>, s: seq<T>, x: T)
    requires p <= s && x in p
    ensures x in s
  {
    var i :| 0 <= i < |p| && p[i] == x;
    assert s[i] == x;
  }

  /** Nothing else is grouped: each assignment comes from a row with a
      non-empty change log, under that row's key. */
  lemma {:induction false} TargetsSound(rows: seq<AuditRow>, t: Target)
    requires t in Targets(rows)
    ensures exists j :: 0 <= j < |rows| && rows[j].changeLog != "" && t.key == KeyOf(rows[j])
                        && t.assign in Kept(Fragments(rows[j].changeLog))
  {
    var n := |rows| - 1;
    var rt := RowTargets(rows[n]);
    if t in Targets(rows[..n]) {
      TargetsSound(rows[..n], t);
      var j :| 0 <= j < n && rows[..n][j].changeLog != "" && t.key == KeyOf(rows[..n][j])
               && t.assign in Kept(Fragments(rows[..n][j].changeLog));
      assert rows[..n][j] == rows[j];
    } else {
      assert t in rt;
      var i :| 0 <= i < |rt| && rt[i] == t;
    }
  }

  /** Every assignment is under a key of `grouped`. */
  lemma {:induction false} TargetsKeyed(rows: seq<AuditRow>)
    ensures forall t :: t in Targets(rows) ==> t.key in Keys(rows)
  {
    if rows != [] {
      var n := |rows| - 1;
      TargetsKeyed(rows[..n]);
    }
  }

  /** A name below the head of an increasing list is below all of it. */
  lemma FirstBelow(x: string, xs: seq<string>)
    requires Increasing(xs) && xs != [] && Less(x, xs[0])
    ensures Increasing([x] + xs)
  {
    var r := [x] + xs;
    forall i, j | 0 <= i < j < |r|
      ensures Less(r[i], r[j])
    {
      if i == 0 && j > 1 {
        LessTransitive(x, xs[0], xs[j - 1]);
      }
    }
  }

  /** Putting the head back in front of an increasing list of larger names. */
  lemma AllAbove(h: string, rest: seq<string>, r: seq<string>, x: string)
    requires Increasing([h] + rest) && Less(h, x) && Increasing(r)
    requires forall y :: y in r <==> y in rest || y == x
    ensures Increasing([h] + r)
  {
    var hr := [h] + r;
    forall i, j | 0 <= i < j < |hr|
      ensures Less(hr[i], hr[j])
    {
      if i == 0 {
        assert hr[j] in r;
        if hr[j] != x {
          var k :| 0 <= k < |rest| && rest[k] == hr[j];
          assert ([h] + rest)[0] == h && ([h] + rest)[k + 1] == hr[j];
        }
      } else {
        assert hr[i] == r[i - 1] && hr[j] == r[j - 1];
      }
    }
  }

  /** Inserts a name into a strictly increasing list, keeping it so. */
  function Insert(x: string, xs: seq<string>): (r: seq<string>)
    requires Increasing(xs) && x !in xs
    ensures Increasing(r) && |r| == |xs| + 1
    ensures forall y :: y in r <==> y in xs || y == x
  {
    if xs == [] then [x]
    else if Less(x, xs[0]) then
      FirstBelow(x, xs);
      [x] + xs
    else
      LessTotal(x, xs[0]);
      assert xs == [xs[0]] + xs[1..];
      var r := Insert(x, xs[1..]);
      AllAbove(xs[0], xs[1..], r, x);
      [xs[0]] + r
  }

  /** Two strictly increasing lists with the same names are the same list:
      the schema is determined by the set of names. */
  lemma {:induction false} IncreasingUnique(a: seq<string>, b: seq<string>)
    requires Increasing(a) && Increasing(b)
    requires forall y :: y in a <==> y in b
    ensures a == b
  {
    if a != [] {
      assert a[0] in b;
    }
    if b != [] {
      assert b[0] in a;
    }
    if a != [] {
      assert a[0] == b[0] by {
        assert a[0] in b;
        var j :| 0 <= j < |b| && b[j] == a[0];
        assert b[0] in a;
        var i :| 0 <= i < |a| && a[i] == b[0];
        if i > 0 && j > 0 {
          LessAsymmetric(a[0], b[0]);
        }
      }
      forall y
        ensures y in a[1..] <==> y in b[1..]
      {
        if y in a[1..] {
          var i :| 0 <= i < |a| - 1 && a[1..][i] == y;
          assert Less(a[0], a[i + 1]);
          LessIrreflexive(y);
          assert y in b;
        }
        if y in b[1..] {
          var i :| 0 <= i < |b| - 1 && b[1..][i] == y;
          assert Less(b[0], b[i + 1]);
          LessIrreflexive(y);
          assert y in a;
        }
      }
      IncreasingUnique(a[1..], b[1..]);
      assert a == [a[0]] + a[1..] && b == [b[0]] + b[1..];
    }
  }

  /** The column list is determined by the set of field names. */
  lemma SchemaUnique(a: seq<string>, b: seq<string>, fields: set<string>)
    requires IsSchema(a, fields) && IsSchema(b, fields)
    ensures a == b
  {
    IncreasingUnique(a, b);
  }

  /** `sorted(f for f in all_fields if f not in unwanted_cols)`: the set is
      walked in any order and each kept name inserted in place. */
  method SortedColumns(all: set<string>) returns (cols: seq<string>)
    ensures IsSchema(cols, all)
  {
    cols := [];
    var rest := all;
    while rest != {}
      invariant rest <= all
      invariant Increasing(cols)
      invariant forall f :: f in cols <==> f in all && f !in rest && f !in Denylist
      decreases |rest|
    {
      var f :| f in rest;
      if f !in Denylist {
        cols := Insert(f, cols);
      }
      rest := rest - {f};
    }
  }

  /** A key nothing was written under has no fields. */
  lemma {:induction false} FieldsUnwritten(ws: seq<Write>, k: Key)
    requires forall i :: 0 <= i < |ws| ==> ws[i].key != k
    ensures Fields(ws, k) == map[]
  {
    if ws != [] {
      FieldsUnwritten(ws[..|ws| - 1], k);
    }
  }

  /** `grouped[key] = {}` for a new key: no assignment so far is under it. */
  lemma GroupNewKey(order: seq<Key>, ts: seq<Target>, values: seq<Option<string>>, k: Key)
    requires |values| == |ts| && k !in order
    requires forall t :: t in ts ==> t.key in order
    ensures Group(order + [k], Writes(ts, values)) == Group(order, Writes(ts, values))[k := map[]]
  {
    var ws := Writes(ts, values);
    forall i | 0 <= i < |ws|
      ensures ws[i].key != k
    {
      assert ts[i] in ts;
    }
    FieldsUnwritten(ws, k);
  }

  /** One more conversion at the end of the sequence. */
  lemma ConvertAllSnoc(ts: seq<Target>, t: Target, m: map<int, string>, token: string, fetch: Fetcher,
                       parse: string -> Literal)
    ensures var c := ConvertAll(ts, m, token, fetch, parse);
            var o := Convert(t.assign.text, c.cache, token, t.assign.field, fetch, parse);
            ConvertAll(ts + [t], m, token, fetch, parse)
              == Conversions(c.values + [o.value], o.cache, c.attempts + o.attempts)
  {
    assert (ts + [t])[..|ts|] == ts;
  }

  /** The fetch discipline across all the conversions of an export: an id
      already in the cache keeps its label and is never sent to the server;
      and an id the server answers for under every field name is sent at
      most once, after which it stays cached. */
  lemma {:induction false} ConvertAllDisciplined(ts: seq<Target>, m: map<int, string>, token: string, fetch: Fetcher,
                                                 parse: string -> Literal, k: int)
    ensures var c := ConvertAll(ts, m, token, fetch, parse);
            k in m ==> k in c.cache && c.cache[k] == m[k] && k !in c.attempts
    ensures var c := ConvertAll(ts, m, token, fetch, parse);
            (forall t :: t in ts ==> fetch(token, t.assign.field, k).Some?) ==>
              multiset(c.attempts)[k] <= 1 && (k in c.attempts ==> k in c.cache)
  {
    if ts != [] {
      var init, t := ts[..|ts| - 1], ts[|ts| - 1];
      ConvertAllDisciplined(init, m, token, fetch, parse, k);
      var c := ConvertAll(init, m, token, fetch, parse);
      ConvertDisciplined(t.assign.text, c.cache, token, t.assign.field, fetch, parse);
      assert (forall u :: u in ts ==> fetch(token, u.assign.field, k).Some?) ==>
               (forall u :: u in init ==> fetch(token, u.assign.field, k).Some?) by {
        assert forall u :: u in init ==> u in ts;
      }
    }
  }

  /** Converting two stretches of assignments one after the other: the
      second starts from the cache the first leaves. */
  lemma {:induction false} ConvertAllAppend(ts: seq<Target>, us: seq<Target>, m: map<int, string>, token: string,
                                            fetch: Fetcher, parse: string -> Literal)
    ensures var c, c1 := ConvertAll(ts + us, m, token, fetch, parse), ConvertAll(ts, m, token, fetch, parse);
            var c2 := ConvertAll(us, c1.cache, token, fetch, parse);
            c == Conversions(c1.values + c2.values, c2.cache, c1.attempts + c2.attempts)
  {
    if us == [] {
      assert ts + us == ts;
    } else {
      var init, u := us[..|us| - 1], us[|us| - 1];
      assert us == init + [u];
      assert ts + us == (ts + init) + [u];
      ConvertAllAppend(ts, init, m, token, fetch, parse);
      var c1 := ConvertAll(ts, m, token, fetch, parse);
      ConvertAllSnoc(ts + init, u, m, token, fetch, parse);
      ConvertAllSnoc(init, u, c1.cache, token, fetch, parse);
      var c2 := ConvertAll(init, c1.cache, token, fetch, parse);
      var o := Convert(u.assign.text, c2.cache, token, u.assign.field, fetch, parse);
      Append3(c1.values, c2.values, [o.value]);
      Append3(c1.attempts, c2.attempts, o.attempts);
    }
  }

  /** Once an id is in the cache after the assignments `ts`, no later
      assignment of `all`, which continues `ts`, sends it to the server. */
  lemma NeverRefetched(ts: seq<Target>, all: seq<Target>, m: map<int, string>, token: string, fetch: Fetcher,
                       parse: string -> Literal, k: int)
    requires ts <= all && k in ConvertAll(ts, m, token, fetch, parse).cache
    ensures var c, c1 := ConvertAll(all, m, token, fetch, parse), ConvertAll(ts, m, token, fetch, parse);
            |c1.attempts| <= |c.attempts| && c.attempts[..|c1.attempts|] == c1.attempts
            && k !in c.attempts[|c1.attempts|..]
  {
    var us := all[|ts|..];
    assert ts + us == all;
    var c1 := ConvertAll(ts, m, token, fetch, parse);
    ConvertAllAppend(ts, us, m, token, fetch, parse);
    ConvertAllDisciplined(us, c1.cache, token, fetch, parse, k);
    var c := ConvertAll(all, m, token, fetch, parse);
    var c2 := ConvertAll(us, c1.cache, token, fetch, parse);
    assert c.attempts[|c1.attempts|..] == c2.attempts;
  }

  /** The same for rows: an id cached while the first `j` rows of the
      export were grouped is never sent to the server for a later row. */
  lemma RowsNeverRefetch(rows: seq<AuditRow>, j: nat, m: map<int, string>, token: string, fetch: Fetcher,
                         parse: string -> Literal, k: int)
    requires j <= |rows| && k in ConvertAll(Targets(rows[..j]), m, token, fetch, parse).cache
    ensures var c, c1 := ConvertAll(Targets(rows), m, token, fetch, parse),
                         ConvertAll(Targets(rows[..j]), m, token, fetch, parse);
            |c1.attempts| <= |c.attempts| && c.attempts[..|c1.attempts|] == c1.attempts
            && k !in c.attempts[|c1.attempts|..]
  {
    TargetsPrefix(rows, j);
    NeverRefetched(Targets(rows[..j]), Targets(rows), m, token, fetch, parse, k);
  }

  /** One more write at the end of the sequence. */
  lemma WritesSnoc(ts: seq<Target>, t: Target, values: seq<Option<string>>, v: Option<string>)
    requires |values| == |ts|
    ensures Writes(ts + [t], values + [v]) == Writes(ts, values) + [Write(t.key, t.assign.field, v)]
  {
  }

  /** `grouped[key][field] = val` on an existing key. */
  lemma GroupSnoc(order: seq<Key>, ws: seq<Write>, w: Write)
    requires w.key in order
    ensures var g := Group(order, ws);
            Group(order, ws + [w]) == g[w.key := g[w.key][w.field := w.value]]
  {
    assert (ws + [w])[..|ws|] == ws;
  }

  /** `all_fields.add(field)`. */
  lemma FieldNamesSnoc(ws: seq<Write>, w: Write)
    ensures FieldNames(ws + [w]) == FieldNames(ws) + {w.field}
  {
    assert forall x :: x in ws + [w] <==> x in ws || x == w;
  }

  /** One kept assignment at the end of a fragment list. */
  lemma KeptSnoc(frags: seq<string>, j: nat)
    requires j < |frags|
    ensures Kept(frags[..j + 1]) == match ParseAssignment(frags[j])
                                    case None => Kept(frags[..j])
                                    case Some(a) => Kept(frags[..j]) + [a]
  {
    assert frags[..j + 1][..j] == frags[..j];
  }

  lemma Append3<T>(a: seq<T>, b: seq<T>, c: seq<T>)
    ensures a + b + c == a + (b + c)
  {
  }

  /** One more assignment under the same key. */
  lemma UnderSnoc(key: Key, asg: seq<Assignment>, a: Assignment)
    ensures Under(key, asg + [a]) == Under(key, asg) + [Target(key, a)]
  {
  }

  /** One more row at the end of the export. */
  lemma KeysSnoc(rows: seq<AuditRow>, j: nat)
    requires j < |rows|
    ensures var ks := Keys(rows[..j]);
            Keys(rows[..j + 1])
              == if rows[j].changeLog == "" || KeyOf(rows[j]) in ks then ks else ks + [KeyOf(rows[j])]
  {
    assert rows[..j + 1][..j] == rows[..j];
  }

  /** One `field=value` fragment handled under a key of `grouped`: the
      conversion continues from the cache so far, and its value is written
      under the key and its field name recorded. */
  lemma MergeStep(order: seq<Key>, ts: seq<Target>, t: Target, m: map<int, string>, token: string,
                  fetch: Fetcher, parse: string -> Literal, before: seq<int>)
    requires t.key in order
    ensures var c := ConvertAll(ts, m, token, fetch, parse);
            var o := Convert(t.assign.text, c.cache, token, t.assign.field, fetch, parse);
            var c' := ConvertAll(ts + [t], m, token, fetch, parse);
            var ws := Writes(ts, c.values);
            var w := Write(t.key, t.assign.field, o.value);
            && c'.cache == o.cache
            && before + c'.attempts == before + c.attempts + o.attempts
            && Group(order, Writes(ts + [t], c'.values)) == Group(order, ws)[t.key := Group(order, ws)[t.key][w.field := w.value]]
            && FieldNames(Writes(ts + [t], c'.values)) == FieldNames(ws) + {w.field}
  {
    var c := ConvertAll(ts, m, token, fetch, parse);
    var o := Convert(t.assign.text, c.cache, token, t.assign.field, fetch, parse);
    var w := Write(t.key, t.assign.field, o.value);
    ConvertAllSnoc(ts, t, m, token, fetch, parse);
    WritesSnoc(ts, t, c.values, o.value);
    GroupSnoc(order, Writes(ts, c.values), w);
    FieldNamesSnoc(Writes(ts, c.values), w);
    Assoc(before, c.attempts, o.attempts);
  }

  /** The inner loop of transform_csv over one change log's fragments, each
      `field=value` fragment converted through the shared cache and written
      under `key`. The state before and after is the specification's state
      for the assignments met so far, `ts` before and `ts` plus this log's
      assignments after. */
  method MergeLog(key: Key, frags: seq<string>, grouped: map<Key, map<string, Option<string>>>,
                  allFields: set<string>, cache: PvCache, token: string, fetch: Fetcher,
                  parse: string -> Literal, ghost order: seq<Key>, ghost ts: seq<Target>,
                  ghost m: map<int, string>, ghost before: seq<int>)
    returns (merged: map<Key, map<string, Option<string>>>, names: set<string>)
    requires key in order
    requires var c := ConvertAll(ts, m, token, fetch, parse);
             && grouped == Group(order, Writes(ts, c.values))
             && allFields == FieldNames(Writes(ts, c.values))
             && cache.labels == c.cache && cache.attempts == before + c.attempts
    modifies cache
    ensures var ts' := ts + Under(key, Kept(frags));
            var c := ConvertAll(ts', m, token, fetch, parse);
            && merged == Group(order, Writes(ts', c.values))
            && names == FieldNames(Writes(ts', c.values))
            && cache.labels == c.cache && cache.attempts == before + c.attempts
  {
    merged, names := grouped, allFields;
    ghost var cur := ts;
    ghost var cv := ConvertAll(cur, m, token, fetch, parse);
    var j := 0;
    while j < |frags|
      invariant 0 <= j <= |frags|
      invariant cur == ts + Under(key, Kept(frags[..j]))
      invariant cv == ConvertAll(cur, m, token, fetch, parse)
      invariant merged == Group(order, Writes(cur, cv.values))
      invariant names == FieldNames(Writes(cur, cv.values))
      invariant cache.labels == cv.cache && cache.attempts == before + cv.attempts
    {
      KeptSnoc(frags, j);
      merged, names := MergeFragment(key, frags[j], merged, names, cache, token, fetch, parse,
                                     order, cur, m, before);
      if ParseAssignment(frags[j]).Some? {
        var t := Target(key, ParseAssignment(frags[j]).value);
        UnderSnoc(key, Kept(frags[..j]), t.assign);
        Append3(ts, Under(key, Kept(frags[..j])), [t]);
        cur := cur + [t];
        cv := ConvertAll(cur, m, token, fetch, parse);
      }
      j := j + 1;
    }
    assert frags[..j] == frags;
  }

  /** One fragment of the inner loop: without `=` it is skipped; otherwise
      it is split at its first `=` and both sides stripped. */
  method MergeFragment(key: Key, c: string, grouped: map<Key, map<string, Option<string>>>,
                       allFields: set<string>, cache: PvCache, token: string, fetch: Fetcher,
                       parse: string -> Literal, ghost order: seq<Key>, ghost ts: seq<Target>,
                       ghost m: map<int, string>, ghost before: seq<int>)
    returns (merged: map<Key, map<string, Option<string>>>, names: set<string>)
    requires key in order
    requires var cv := ConvertAll(ts, m, token, fetch, parse);
             && grouped == Group(order, Writes(ts, cv.values))
             && allFields == FieldNames(Writes(ts, cv.values))
             && cache.labels == cv.cache && cache.attempts == before + cv.attempts
    modifies cache
    ensures ParseAssignment(c).None? ==>
              merged == grouped && names == allFields && cache.labels == old(cache.labels)
              && cache.attempts == old(cache.attempts)
    ensures ParseAssignment(c).Some? ==>
              var ts' := ts + [Target(key, ParseAssignment(c).value)];
              var cv := ConvertAll(ts', m, token, fetch, parse);
              && merged == Group(order, Writes(ts', cv.values))
              && names == FieldNames(Writes(ts', cv.values))
              && cache.labels == cv.cache && cache.attempts == before + cv.attempts
  {
    var e := EqIndex(c);
    if e < |c| {
      var field, text := Strip(c[..e]), Strip(c[e + 1..]);
      assert ParseAssignment(c) == Some(Assignment(field, text));
      merged, names := MergeAssignment(key, field, text, grouped, allFields, cache, token, fetch, parse,
                                       order, ts, m, before);
    } else {
      assert ParseAssignment(c) == None;
      merged, names := grouped, allFields;
    }
  }

  /** One `field=value` fragment of the inner loop: the value is converted
      through the cache and written under `key`, and the field name
      recorded. */
  method MergeAssignment(key: Key, field: string, text: string,
                         grouped: map<Key, map<string, Option<string>>>, allFields: set<string>,
                         cache: PvCache, token: string, fetch: Fetcher, parse: string -> Literal,
                         ghost order: seq<Key>, ghost ts: seq<Target>, ghost m: map<int, string>,
                         ghost before: seq<int>)
    returns (merged: map<Key, map<string, Option<string>>>, names: set<string>)
    requires key in order
    requires var cv := ConvertAll(ts, m, token, fetch, parse);
             && grouped == Group(order, Writes(ts, cv.values))
             && allFields == FieldNames(Writes(ts, cv.values))
             && cache.labels == cv.cache && cache.attempts == before + cv.attempts
    modifies cache
    ensures var ts' := ts + [Target(key, Assignment(field, text))];
            var cv := ConvertAll(ts', m, token, fetch, parse);
            && merged == Group(order, Writes(ts', cv.values))
            && names == FieldNames(Writes(ts', cv.values))
            && cache.labels == cv.cache && cache.attempts == before + cv.attempts
  {
    var v := cache.ConvertIdToPv(text, token, field, fetch, parse);
    MergeStep(order, ts, Target(key, Assignment(field, text)), m, token, fetch, parse, before);
    merged := grouped[key := grouped[key][field := v]];
    names := allFields + {field};
  }

  /** One row of the grouping loop: a row with an empty change log is
      skipped; otherwise its key gets an empty entry in `grouped` if it has
      none yet, and its fragments are merged under it. */
  method AddRow(row: AuditRow, grouped: map<Key, map<string, Option<string>>>, order: seq<Key>,
                allFields: set<string>, cache: PvCache, token: string, fetch: Fetcher,
                parse: string -> Literal, ghost ts: seq<Target>, ghost m: map<int, string>,
                ghost before: seq<int>)
    returns (grouped': map<Key, map<string, Option<string>>>, order': seq<Key>, allFields': set<string>)
    requires forall t :: t in ts ==> t.key in order
    requires var c := ConvertAll(ts, m, token, fetch, parse);
             && grouped == Group(order, Writes(ts, c.values))
             && allFields == FieldNames(Writes(ts, c.values))
             && cache.labels == c.cache && cache.attempts == before + c.attempts
    modifies cache
    ensures order' == if row.changeLog == "" || KeyOf(row) in order then order else order + [KeyOf(row)]
    ensures var ts' := ts + RowTargets(row);
            var c := ConvertAll(ts', m, token, fetch, parse);
            && grouped' == Group(order', Writes(ts', c.values))
            && allFields' == FieldNames(Writes(ts', c.values))
            && cache.labels == c.cache && cache.attempts == before + c.attempts
  {
    grouped', order', allFields' := grouped, order, allFields;
    if row.changeLog == "" {
      assert ts + RowTargets(row) == ts;
      return;
    }
    var key := KeyOf(row);
    if key !in grouped {
      GroupNewKey(order, ts, ConvertAll(ts, m, token, fetch, parse).values, key);
      grouped' := grouped'[key := map[]];
      order' := order' + [key];
    }
    var frags := SplitChanges(row.changeLog);
    grouped', allFields' := MergeLog(key, frags, grouped', allFields', cache, token, fetch, parse,
                                     order', ts, m, before);
  }

  /** The grouping loop of transform_csv over the rows of the export:
      `grouped` (with its keys in insertion order) and `all_fields` end as
      the specification's grouping of all the rows' assignments, and the
      cache as the conversions threaded through them left it. */
  method GroupRows(rows: seq<AuditRow>, cache: PvCache, token: string, fetch: Fetcher,
                   parse: string -> Literal)
    returns (grouped: map<Key, map<string, Option<string>>>, order: seq<Key>, allFields: set<string>)
    modifies cache
    ensures var c := ConvertAll(Targets(rows), old(cache.labels), token, fetch, parse);
            var ws := Writes(Targets(rows), c.values);
            && order == Keys(rows) && grouped == Group(order, ws) && allFields == FieldNames(ws)
            && cache.labels == c.cache && cache.attempts == old(cache.attempts) + c.attempts
  {
    ghost var m, before := cache.labels, cache.attempts;
    grouped, order, allFields := map[], [], {};
    ghost var ts: seq<Target> := [];
    var i := 0;
    while i < |rows|
      invariant 0 <= i <= |rows|
      invariant ts == Targets(rows[..i]) && order == Keys(rows[..i])
      invariant var c := ConvertAll(ts, m, token, fetch, parse);
                && grouped == Group(order, Writes(ts, c.values))
                && allFields == FieldNames(Writes(ts, c.values))
                && cache.labels == c.cache && cache.attempts == before + c.attempts
    {
      KeysSnoc(rows, i);
      TargetsSnoc(rows, i);
      TargetsKeyed(rows[..i]);
      grouped, order, allFields := AddRow(rows[i], grouped, order, allFields, cache, token, fetch, parse,
                                          ts, m, before);
      ts := ts + RowTargets(rows[i]);
      i := i + 1;
    }
    assert rows[..i] == rows;
  }

  /** The output loop: one row per key of `grouped`, in insertion order. */
  method RenderRows(order: seq<Key>, grouped: map<Key, map<string, Option<string>>>, reqId: string,
                    eventLabel: string, cols: seq<string>)
    returns (body: seq<seq<string>>)
    requires forall k :: k in order ==> k in grouped
    ensures |body| == |order|
    ensures forall r :: 0 <= r < |order| ==> body[r] == BuildRow(order[r], grouped[order[r]], reqId, eventLabel, cols)
  {
    body := [];
    var k := 0;
    while k < |order|
      invariant 0 <= k <= |order| && |body| == k
      invariant forall r :: 0 <= r < k ==> body[r] == BuildRow(order[r], grouped[order[r]], reqId, eventLabel, cols)
    {
      body := body + [BuildRow(order[k], grouped[order[k]], reqId, eventLabel, cols)];
      k := k + 1;
    }
  }

  /** transform_csv without the files: the header is the five fixed columns
      and the schema of every field written, and each key of `grouped`
      gives one row holding, per column, the last value written to that
      field under the key. */
  method TransformRows(rows: seq<AuditRow>, reqId: string, eventLabel: string, cache: PvCache,
                       token: string, fetch: Fetcher, parse: string -> Literal)
    returns (header: seq<string>, body: seq<seq<string>>)
    modifies cache
    ensures var c := ConvertAll(Targets(rows), old(cache.labels), token, fetch, parse);
            var ws := Writes(Targets(rows), c.values);
            && |header| >= 5 && header[..5] == Fixed && IsSchema(header[5..], FieldNames(ws))
            && |body| == |Keys(rows)|
            && (forall r :: 0 <= r < |body| ==>
                  body[r] == BuildRow(Keys(rows)[r], Fields(ws, Keys(rows)[r]), reqId, eventLabel, header[5..]))
            && cache.labels == c.cache && cache.attempts == old(cache.attempts) + c.attempts
  {
    var grouped, order, allFields := GroupRows(rows, cache, token, fetch, parse);
    var cols := SortedColumns(allFields);
    header := Fixed + cols;
    body := RenderRows(order, grouped, reqId, eventLabel, cols);
    assert header[5..] == cols;
  }
}
