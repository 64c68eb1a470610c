/** convert_id_to_pv (sr_audit.py:106-153): turns a changed value into
    permissible-value labels, looking ids up in the `pv_maps` cache and, on a
    miss, asking the server. The server is a function `fetch` of
    (token, field name, id) that yields the permissible value or `None` when
    the request or the reply fails; `ast.literal_eval` is a function `parse`
    into the small datatype `Literal`. */
module Resolver {
  import opened Wrappers
  import opened Text
  import opened Labels
  import opened IdScan

  /** The server: (token, field name, id) to the permissible value, or
      `None` when fetch_pv_by_id raises. */
  type Fetcher = (string, string, int) -> Option<PvEntry>

  /** A fetch is attempted only when both `token` and `field_name` are
      truthy (an absent token is the empty string here). */
  predicate CanFetch(token: string, field: string)
  {
    token != "" && field != ""
  }

  /** What looking up one id found. */
  datatype Lookup =
    | Cached(text: string)     // pv_maps already held the id
    | Fetched(text: string)    // a miss, and the server answered
    | FetchFailed               // a miss, and the request raised
    | Skipped                   // a miss with no token or no field name

  /** One lookup against the cache `m`. */
  function LookupId(m: map<int, string>, token: string, field: string, id: int, fetch: Fetcher): Lookup
  {
    if id in m then Cached(m[id])
    else if !CanFetch(token, field) then Skipped
    else match fetch(token, field, id)
      case Some(pv) => Fetched(Label(pv))
      case None => FetchFailed
  }

  /** The cache after a lookup: only a successful fetch stores. */
  function Stored(m: map<int, string>, id: int, l: Lookup): map<int, string>
  {
    if l.Fetched? then m[id := l.text] else m
  }

  /** The lookup went to the server. */
  predicate Attempted(l: Lookup)
  {
    l.Fetched? || l.FetchFailed?
  }

  /** The result of looking up a sequence of ids in order, the cache
      threaded through: what each lookup found, the final cache and the ids
      sent to the server. */
  datatype Pass = Pass(found: seq<Lookup>, cache: map<int, string>, attempts: seq<int>)

  function LookupAll(ids: seq<int>, m: map<int, string>, token: string, field: string, fetch: Fetcher): (r: Pass)
    ensures |r.found| == |ids|
  {
    if ids == [] then Pass([], m, [])
    else
      var p := LookupAll(ids[..|ids| - 1], m, token, field, fetch);
      var id := ids[|ids| - 1];
      var l := LookupId(p.cache, token, field, id, fetch);
      Pass(p.found + [l], Stored(p.cache, id, l), p.attempts + (if Attempted(l) then [id] else []))
  }

  /** The reference cache after looking up `ids`: the old entries, plus the
      label of every id the server knows, when a fetch is allowed. */
  function Grown(m: map<int, string>, ids: seq<int>, token: string, field: string, fetch: Fetcher): map<int, string>
  {
    var added := set x | x in ids && CanFetch(token, field) && fetch(token, field, x).Some?;
    map k | k in m.Keys + added :: if k in m then m[k] else Label(fetch(token, field, k).value)
  }

  /** The cache a sequence of lookups leaves is the reference cache: no old
      entry changes, and an id is added exactly when it was missing, a fetch
      was allowed and the server answered. */
  lemma {:induction false} LookupAllCache(ids: seq<int>, m: map<int, string>, token: string, field: string, fetch: Fetcher)
    ensures LookupAll(ids, m, token, field, fetch).cache == Grown(m, ids, token, field, fetch)
  {
    if ids != [] {
      var init := ids[..|ids| - 1];
      LookupAllCache(init, m, token, field, fetch);
      GrownStep(m, init, ids[|ids| - 1], token, field, fetch);
      assert init + [ids[|ids| - 1]] == ids;
    }
  }

  lemma GrownStep(m: map<int, string>, ids: seq<int>, id: int, token: string, field: string, fetch: Fetcher)
    ensures var g := Grown(m, ids, token, field, fetch);
            Stored(g, id, LookupId(g, token, field, id, fetch)) == Grown(m, ids + [id], token, field, fetch)
  {
    var g, g' := Grown(m, ids, token, field, fetch), Grown(m, ids + [id], token, field, fetch);
    var l := LookupId(g, token, field, id, fetch);
    assert forall k :: k in ids + [id] <==> k in ids || k == id;
    assert Stored(g, id, l).Keys == g'.Keys;
  }

  /** What each lookup found agrees with the final cache: a label when the
      id ends up cached (the very label cached), and otherwise a failed
      fetch when fetching was allowed and a skip when not. */
  lemma {:induction false} LookupAllFound(ids: seq<int>, m: map<int, string>, token: string, field: string, fetch: Fetcher, j: nat)
    requires j < |ids|
    ensures var p := LookupAll(ids, m, token, field, fetch);
            && (ids[j] in p.cache <==> p.found[j].Cached? || p.found[j].Fetched?)
            && (ids[j] in p.cache ==> p.found[j].text == p.cache[ids[j]])
            && (ids[j] !in p.cache ==> p.found[j] == if CanFetch(token, field) then FetchFailed else Skipped)
  {
    var n := |ids| - 1;
    var init := ids[..n];
    LookupAllCache(ids, m, token, field, fetch);
    LookupAllCache(init, m, token, field, fetch);
    if j < n {
      LookupAllFound(init, m, token, field, fetch, j);
    }
  }

  /** The ids sent to the server are exactly the ids that were missing from
      the old cache, when a fetch is allowed. */
  lemma {:induction false} LookupAllAttempts(ids: seq<int>, m: map<int, string>, token: string, field: string, fetch: Fetcher, k: int)
    ensures var p := LookupAll(ids, m, token, field, fetch);
            k in p.attempts <==> k in ids && k !in m && CanFetch(token, field)
  {
    if ids != [] {
      var init := ids[..|ids| - 1];
      LookupAllAttempts(init, m, token, field, fetch, k);
      LookupAllCache(init, m, token, field, fetch);
      assert forall x :: x in ids <==> x in init || x == ids[|ids| - 1];
    }
  }

  /** Once the server has answered for an id, that id is never fetched
      again: it is sent at most once. */
  lemma {:induction false} FetchedOnce(ids: seq<int>, m: map<int, string>, token: string, field: string, fetch: Fetcher, k: int)
    requires fetch(token, field, k).Some?
    ensures multiset(LookupAll(ids, m, token, field, fetch).attempts)[k] <= 1
  {
    if ids != [] {
      var init := ids[..|ids| - 1];
      FetchedOnce(init, m, token, field, fetch, k);
      LookupAllCache(init, m, token, field, fetch);
      LookupAllAttempts(init, m, token, field, fetch, k);
    }
  }

  /** The id-token branch renders a lookup: the label when it is non-empty,
      otherwise the id in decimal (`val if val else str(i_int)`). */
  function IdLabel(id: int, l: Lookup): string
  {
    if (l.Cached? || l.Fetched?) && l.text != "" then l.text else Decimal(id)
  }

  /** The label the id-token branch shows for `id` given the final cache. */
  function Shown(m: map<int, string>, id: int): (r: string)
    ensures r != ""
  {
    if id in m && m[id] != "" then m[id] else Decimal(id)
  }

  /** The ids of the `{id=<digits>}` references, `int(i)` of each group. */
  function IdsOf(toks: seq<string>): (ids: seq<int>)
    requires forall t :: t in toks ==> AllDigits(t)
    ensures |ids| == |toks|
  {
    seq(|toks|, k requires 0 <= k < |toks| => DigitsValue(toks[k]))
  }

  /** The ids referenced in `s`, in order of occurrence. */
  function RefIds(s: string): (ids: seq<int>)
    ensures |ids| == |FindIds(s)|
  {
    FindFromDigits(s, 0);
    IdsOf(FindIds(s))
  }

  /** A dictionary key `'id'` as literal_eval produced it. */
  datatype IdLit =
    | IntLit(n: int)        // an int
    | StrLit(text: string)  // a str
    | BoolLit(b: bool)      // True or False
    | FloatLit(whole: Option<int>, text: string)
                            // a float: its truncation toward zero (None for inf
                            // and nan), and its str() form
    | OtherLit(text: string) // anything int() rejects, with its str() form

  /** `int(x)`: an int is itself; a str is parsed after stripping
      whitespace, with an optional sign; True and False are 1 and 0; a float
      is truncated toward zero and raises when infinite or nan; anything
      else raises. */
  function ToInt(v: IdLit): Option<int>
  {
    match v
    case IntLit(n) => Some(n)
    case StrLit(t) => ParseInt(Strip(t))
    case BoolLit(b) => Some(if b then 1 else 0)
    case FloatLit(w, _) => w
    case OtherLit(_) => None
  }

  function ParseInt(u: string): (r: Option<int>)
    ensures u != [] && AllDigits(u) ==> r == Some(DigitsValue(u))
  {
    if u != [] && AllDigits(u) then Some(DigitsValue(u))
    else if |u| > 1 && u[0] == '-' && AllDigits(u[1..]) then Some(-(DigitsValue(u[1..]) as int))
    else if |u| > 1 && u[0] == '+' && AllDigits(u[1..]) then Some(DigitsValue(u[1..]))
    else None
  }

  /** int(str(n)) == n, for negative `n` too. */
  lemma ParseDecimal(n: int)
    ensures ParseInt(Decimal(n)) == Some(n)
  {
    if n < 0 {
      var d := NatDecimal(-n);
      DecimalRoundTrip(-n);
      assert Decimal(n)[1..] == d;
    } else {
      DecimalRoundTrip(n);
    }
  }

  /** `str(x)`. */
  function Repr(v: IdLit): string
  {
    match v
    case IntLit(n) => Decimal(n)
    case StrLit(t) => t
    case BoolLit(b) => if b then "True" else "False"
    case FloatLit(_, t) => t
    case OtherLit(t) => t
  }

  /** An element of a parsed list: a dict, with the value of its `'id'` key
      when it has one, or anything else. */
  datatype Item = DictItem(id: Option<IdLit>) | OtherItem

  /** What `ast.literal_eval(s)` gives: it raises, or a list, or a dict (with
      the value of its `'id'` key when it has one), or any other literal. */
  datatype Literal =
    | Unparsable
    | ListLit(items: seq<Item>)
    | DictLit(id: Option<IdLit>)
    | OtherLiteral

  /** The literal branches render a lookup: the label as cached or fetched
      (even empty), `str(item['id'])` after a failed fetch, and None after a
      skipped one. */
  function ItemValue(v: IdLit, l: Lookup): Option<string>
  {
    match l
    case Cached(x) => Some(x)
    case Fetched(x) => Some(x)
    case FetchFailed => Some(Repr(v))
    case Skipped => None
  }

  /** The `'id'` values of the list's dict items that have one, in order. */
  function ItemIds(items: seq<Item>): seq<IdLit>
  {
    if items == [] then []
    else
      var last := items[|items| - 1];
      ItemIds(items[..|items| - 1]) + (if last.DictItem? && last.id.Some? then [last.id.value] else [])
  }

  /** The number of leading `'id'` values that int() accepts: the loop
      raises at the first one it rejects. */
  function Convertible(vs: seq<IdLit>): (n: nat)
    ensures n <= |vs|
    ensures forall k :: 0 <= k < n ==> ToInt(vs[k]).Some?
    ensures n < |vs| ==> ToInt(vs[n]).None?
  {
    if vs == [] || ToInt(vs[0]).None? then 0 else 1 + Convertible(vs[1..])
  }

  /** int() of each of the values. */
  function Ints(vs: seq<IdLit>): (ns: seq<int>)
    requires forall k :: 0 <= k < |vs| ==> ToInt(vs[k]).Some?
    ensures |ns| == |vs|
  {
    seq(|vs|, k requires 0 <= k < |vs| && ToInt(vs[k]).Some? => ToInt(vs[k]).value)
  }

  /** The literal branches' rendering of each looked-up value. */
  function ItemValues(vs: seq<IdLit>, found: seq<Lookup>): (r: seq<Option<string>>)
    requires |found| == |vs|
    ensures |r| == |vs|
  {
    seq(|vs|, k requires 0 <= k < |vs| => ItemValue(vs[k], found[k]))
  }

  predicate AllSome(xs: seq<Option<string>>)
  {
    forall k :: 0 <= k < |xs| ==> xs[k].Some?
  }

  function Values(xs: seq<Option<string>>): (r: seq<string>)
    requires AllSome(xs)
    ensures |r| == |xs|
  {
    seq(|xs|, k requires 0 <= k < |xs| && AllSome(xs) => xs[k].value)
  }

  /** The result of convert_id_to_pv: the returned value (None only from the
      single-dict branch), the cache afterwards and the ids sent to the
      server. */
  datatype Outcome = Outcome(value: Option<string>, cache: map<int, string>, attempts: seq<int>)

  /** convert_id_to_pv on the string `s`. */
  function Convert(s: string, m: map<int, string>, token: string, field: string, fetch: Fetcher, parse: string -> Literal): Outcome
  {
    if FindIds(s) != [] then
      var ids := RefIds(s);
      var p := LookupAll(ids, m, token, field, fetch);
      Outcome(Some(Join(seq(|ids|, k requires 0 <= k < |ids| => IdLabel(ids[k], p.found[k])), ", ")),
              p.cache, p.attempts)
    else
      match parse(s)
      case ListLit(items) =>
        var vs := ItemIds(items);
        var n := Convertible(vs);
        var p := LookupAll(Ints(vs[..n]), m, token, field, fetch);
        if n < |vs| then Outcome(Some(s), p.cache, p.attempts)
        else
          var xs := ItemValues(vs, p.found);
          if AllSome(xs) then Outcome(Some(Join(Values(xs), ", ")), p.cache, p.attempts)
          else Outcome(Some(s), p.cache, p.attempts)
      case DictLit(Some(v)) =>
        if ToInt(v).None? then Outcome(Some(s), m, [])
        else
          var p := LookupAll([ToInt(v).value], m, token, field, fetch);
          Outcome(ItemValue(v, p.found[0]), p.cache, p.attempts)
      case _ => Outcome(Some(s), m, [])
  }

  /** The reference cache keeps every old entry, and each added entry is
      the label of what the server returned for an id of `ids`. */
  lemma GrownExtends(m: map<int, string>, ids: seq<int>, token: string, field: string, fetch: Fetcher)
    ensures var g := Grown(m, ids, token, field, fetch);
            && (forall k :: k in m ==> k in g && g[k] == m[k])
            && (forall k :: k in g && k !in m ==>
                  k in ids && CanFetch(token, field) && fetch(token, field, k).Some?
                  && g[k] == Label(fetch(token, field, k).value))
  {
  }

  /** The fetch discipline of one pass: what it adds to the cache, what it
      sends to the server, that an id the server answered for is stored,
      and that such an id is sent at most once. */
  ghost predicate Disciplined(m: map<int, string>, o: Outcome, token: string, field: string, fetch: Fetcher)
  {
    && (forall k :: k in m ==> k in o.cache && o.cache[k] == m[k])
    && (forall k :: k in o.cache && k !in m ==>
          CanFetch(token, field) && fetch(token, field, k).Some?
          && o.cache[k] == Label(fetch(token, field, k).value))
    && (forall k :: k in o.attempts ==> k !in m && CanFetch(token, field))
    && (forall k :: k in o.attempts && fetch(token, field, k).Some? ==> k in o.cache)
    && (forall k :: fetch(token, field, k).Some? ==> multiset(o.attempts)[k] <= 1)
  }

  lemma PassDisciplined(ids: seq<int>, m: map<int, string>, token: string, field: string, fetch: Fetcher, v: Option<string>)
    ensures var p := LookupAll(ids, m, token, field, fetch);
            Disciplined(m, Outcome(v, p.cache, p.attempts), token, field, fetch)
  {
    LookupAllCache(ids, m, token, field, fetch);
    GrownExtends(m, ids, token, field, fetch);
    forall k
      ensures k in LookupAll(ids, m, token, field, fetch).attempts ==> k in ids && k !in m && CanFetch(token, field)
    {
      LookupAllAttempts(ids, m, token, field, fetch, k);
    }
    forall k | fetch(token, field, k).Some?
      ensures multiset(LookupAll(ids, m, token, field, fetch).attempts)[k] <= 1
    {
      FetchedOnce(ids, m, token, field, fetch, k);
    }
  }

  /** In every branch the cache only grows, by labels the server returned;
      the server is asked only about ids missing from the cache when both
      token and field name are given; and an id it answered for is never
      asked about again. */
  lemma ConvertDisciplined(s: string, m: map<int, string>, token: string, field: string, fetch: Fetcher, parse: string -> Literal)
    ensures Disciplined(m, Convert(s, m, token, field, fetch, parse), token, field, fetch)
  {
    var o := Convert(s, m, token, field, fetch, parse);
    if FindIds(s) != [] {
      PassDisciplined(RefIds(s), m, token, field, fetch, o.value);
    } else {
      match parse(s)
      case ListLit(items) =>
        var vs := ItemIds(items);
        PassDisciplined(Ints(vs[..Convertible(vs)]), m, token, field, fetch, o.value);
      case DictLit(Some(v)) =>
        if ToInt(v).Some? {
          PassDisciplined([ToInt(v).value], m, token, field, fetch, o.value);
        }
      case _ =>
    }
  }

  /** The id-token branch: the labels of all references in order, joined by
      ", ", each the cached label when the final cache holds a non-empty one
      and the id in decimal otherwise; every referenced id missing from the
      cache is sent to the server when token and field name are given. */
  lemma ConvertIdRefs(s: string, m: map<int, string>, token: string, field: string, fetch: Fetcher, parse: string -> Literal)
    requires FindIds(s) != []
    ensures var o, ids := Convert(s, m, token, field, fetch, parse), RefIds(s);
            && o.cache == Grown(m, ids, token, field, fetch)
            && o.value == Some(Join(seq(|ids|, k requires 0 <= k < |ids| => Shown(o.cache, ids[k])), ", "))
            && (forall k :: k in o.attempts <==> k in ids && k !in m && CanFetch(token, field))
  {
    var ids := RefIds(s);
    var p := LookupAll(ids, m, token, field, fetch);
    LookupAllCache(ids, m, token, field, fetch);
    forall k | 0 <= k < |ids|
      ensures IdLabel(ids[k], p.found[k]) == Shown(p.cache, ids[k])
    {
      LookupAllFound(ids, m, token, field, fetch, k);
    }
    assert seq(|ids|, k requires 0 <= k < |ids| => IdLabel(ids[k], p.found[k]))
        == seq(|ids|, k requires 0 <= k < |ids| => Shown(p.cache, ids[k]));
    forall k
      ensures k in p.attempts <==> k in ids && k !in m && CanFetch(token, field)
    {
      LookupAllAttempts(ids, m, token, field, fetch, k);
    }
  }

  /** What the list branch appends for each `'id'` value when int() accepts
      them all: the label in the final cache, else str() of the value when
      the fetch failed, else None. */
  lemma ListFound(vs: seq<IdLit>, m: map<int, string>, token: string, field: string, fetch: Fetcher)
    requires forall k :: 0 <= k < |vs| ==> ToInt(vs[k]).Some?
    ensures var ns := Ints(vs);
            var p := LookupAll(ns, m, token, field, fetch);
            && p.cache == Grown(m, ns, token, field, fetch)
            && forall k :: 0 <= k < |vs| ==>
                 ItemValues(vs, p.found)[k]
                 == if ns[k] in p.cache then Some(p.cache[ns[k]])
                    else if CanFetch(token, field) then Some(Repr(vs[k])) else None
  {
    var ns := Ints(vs);
    var p := LookupAll(ns, m, token, field, fetch);
    LookupAllCache(ns, m, token, field, fetch);
    forall k | 0 <= k < |vs|
      ensures ItemValues(vs, p.found)[k]
              == if ns[k] in p.cache then Some(p.cache[ns[k]])
                 else if CanFetch(token, field) then Some(Repr(vs[k])) else None
    {
      LookupAllFound(ns, m, token, field, fetch, k);
    }
  }

  /** With no token or no field name, a pass neither changes the cache nor
      asks the server anything. */
  lemma {:induction false} OfflinePass(ids: seq<int>, m: map<int, string>, token: string, field: string, fetch: Fetcher)
    requires !CanFetch(token, field)
    ensures LookupAll(ids, m, token, field, fetch).cache == m
    ensures LookupAll(ids, m, token, field, fetch).attempts == []
  {
    if ids != [] {
      OfflinePass(ids[..|ids| - 1], m, token, field, fetch);
    }
  }

  /** The list branch, with every `'id'` value accepted by int(): the pass
      over them all. */
  lemma ConvertListPass(s: string, m: map<int, string>, token: string, field: string, fetch: Fetcher, parse: string -> Literal, items: seq<Item>)
    requires FindIds(s) == [] && parse(s) == ListLit(items)
    requires forall k :: 0 <= k < |ItemIds(items)| ==> ToInt(ItemIds(items)[k]).Some?
    ensures var vs := ItemIds(items);
            var p := LookupAll(Ints(vs), m, token, field, fetch);
            var xs := ItemValues(vs, p.found);
            Convert(s, m, token, field, fetch, parse)
            == if AllSome(xs) then Outcome(Some(Join(Values(xs), ", ")), p.cache, p.attempts)
               else Outcome(Some(s), p.cache, p.attempts)
  {
    var vs := ItemIds(items);
    assert vs[..Convertible(vs)] == vs;
  }

  /** The list branch: when int() rejects one of the `'id'` values, the raw
      string comes back. */
  lemma ConvertListRejected(s: string, m: map<int, string>, token: string, field: string, fetch: Fetcher, parse: string -> Literal, items: seq<Item>)
    requires FindIds(s) == [] && parse(s) == ListLit(items)
    requires exists k :: 0 <= k < |ItemIds(items)| && ToInt(ItemIds(items)[k]).None?
    ensures Convert(s, m, token, field, fetch, parse).value == Some(s)
  {
  }

  /** The list branch with a fetch allowed: each id shows its label from the
      final cache, or the str() form of its value when the server failed. */
  lemma ConvertListFetched(s: string, m: map<int, string>, token: string, field: string, fetch: Fetcher, parse: string -> Literal, items: seq<Item>)
    requires FindIds(s) == [] && parse(s) == ListLit(items) && CanFetch(token, field)
    requires forall k :: 0 <= k < |ItemIds(items)| ==> ToInt(ItemIds(items)[k]).Some?
    ensures var o, vs := Convert(s, m, token, field, fetch, parse), ItemIds(items);
            var ns := Ints(vs);
            && o.cache == Grown(m, ns, token, field, fetch)
            && o.value == Some(Join(seq(|vs|, k requires 0 <= k < |vs| =>
                                      if ns[k] in o.cache then o.cache[ns[k]] else Repr(vs[k])), ", "))
  {
    ConvertListPass(s, m, token, field, fetch, parse, items);
    FetchedList(ItemIds(items), m, token, field, fetch);
  }

  /** The pass of the list branch with a fetch allowed: every value is
      rendered. */
  lemma FetchedList(vs: seq<IdLit>, m: map<int, string>, token: string, field: string, fetch: Fetcher)
    requires CanFetch(token, field)
    requires forall k :: 0 <= k < |vs| ==> ToInt(vs[k]).Some?
    ensures var ns := Ints(vs);
            var p := LookupAll(ns, m, token, field, fetch);
            var xs := ItemValues(vs, p.found);
            && p.cache == Grown(m, ns, token, field, fetch)
            && AllSome(xs)
            && Values(xs) == seq(|vs|, k requires 0 <= k < |vs| =>
                                   if ns[k] in p.cache then p.cache[ns[k]] else Repr(vs[k]))
  {
    var ns := Ints(vs);
    var p := LookupAll(ns, m, token, field, fetch);
    ListFound(vs, m, token, field, fetch);
    var xs := ItemValues(vs, p.found);
    assert AllSome(xs);
    assert Values(xs) == seq(|vs|, k requires 0 <= k < |vs| =>
                               if ns[k] in p.cache then p.cache[ns[k]] else Repr(vs[k]));
  }

  /** The list branch with no fetch allowed: the cache is untouched, the
      values come from it, and one missing id makes the join fail, so the
      raw string comes back. */
  lemma ConvertListOffline(s: string, m: map<int, string>, token: string, field: string, fetch: Fetcher, parse: string -> Literal, items: seq<Item>)
    requires FindIds(s) == [] && parse(s) == ListLit(items) && !CanFetch(token, field)
    requires forall k :: 0 <= k < |ItemIds(items)| ==> ToInt(ItemIds(items)[k]).Some?
    ensures var o, ns := Convert(s, m, token, field, fetch, parse), Ints(ItemIds(items));
            && o.cache == m && o.attempts == []
            && o.value == if forall k :: 0 <= k < |ns| ==> ns[k] in m
                          then Some(Join(seq(|ns|, k requires 0 <= k < |ns| && ns[k] in m => m[ns[k]]), ", "))
                          else Some(s)
  {
    ConvertListPass(s, m, token, field, fetch, parse, items);
    OfflineList(ItemIds(items), m, token, field, fetch);
  }

  /** The pass of the list branch with no fetch allowed. */
  lemma OfflineList(vs: seq<IdLit>, m: map<int, string>, token: string, field: string, fetch: Fetcher)
    requires !CanFetch(token, field)
    requires forall k :: 0 <= k < |vs| ==> ToInt(vs[k]).Some?
    ensures var ns := Ints(vs);
            var p := LookupAll(ns, m, token, field, fetch);
            var xs := ItemValues(vs, p.found);
            && p.cache == m && p.attempts == []
            && (AllSome(xs) <==> forall k :: 0 <= k < |ns| ==> ns[k] in m)
            && (AllSome(xs) ==> Values(xs) == seq(|ns|, k requires 0 <= k < |ns| && ns[k] in m => m[ns[k]]))
  {
    var ns := Ints(vs);
    var p := LookupAll(ns, m, token, field, fetch);
    OfflinePass(ns, m, token, field, fetch);
    ListFound(vs, m, token, field, fetch);
    var xs := ItemValues(vs, p.found);
    if forall k :: 0 <= k < |ns| ==> ns[k] in m {
      assert AllSome(xs);
      assert Values(xs) == seq(|ns|, k requires 0 <= k < |ns| && ns[k] in m => m[ns[k]]);
    } else {
      var k :| 0 <= k < |ns| && ns[k] !in m;
      assert xs[k].None?;
    }
  }

  /** The single-dict branch: a value int() rejects gives the raw string
      back; otherwise the label in the final cache, else str() of the value
      when the fetch failed, else None when no fetch was allowed. */
  lemma ConvertDict(s: string, m: map<int, string>, token: string, field: string, fetch: Fetcher, parse: string -> Literal, v: IdLit)
    requires FindIds(s) == [] && parse(s) == DictLit(Some(v))
    ensures ToInt(v).None? ==> Convert(s, m, token, field, fetch, parse) == Outcome(Some(s), m, [])
    ensures ToInt(v).Some? ==>
              var n, o := ToInt(v).value, Convert(s, m, token, field, fetch, parse);
              && o.cache == Grown(m, [n], token, field, fetch)
              && o.value == if n in o.cache then Some(o.cache[n])
                            else if CanFetch(token, field) then Some(Repr(v)) else None
  {
    if ToInt(v).Some? {
      assert Ints([v]) == [ToInt(v).value];
      ListFound([v], m, token, field, fetch);
    }
  }

  /** Anything that has no id reference and is not a list or a dict with an
      `'id'` key once parsed (including text literal_eval rejects) comes back
      unchanged, and the cache is untouched. */
  lemma ConvertOther(s: string, m: map<int, string>, token: string, field: string, fetch: Fetcher, parse: string -> Literal)
    requires FindIds(s) == []
    requires !parse(s).ListLit? && !(parse(s).DictLit? && parse(s).id.Some?)
    ensures Convert(s, m, token, field, fetch, parse) == Outcome(Some(s), m, [])
  {
  }

  /** A list whose items carry no `'id'` gives the empty string, not the
      raw text, and touches nothing. */
  lemma ListWithoutIds(s: string, m: map<int, string>, token: string, field: string, fetch: Fetcher, parse: string -> Literal, items: seq<Item>)
    requires FindIds(s) == [] && parse(s) == ListLit(items)
    requires forall k :: 0 <= k < |items| ==> !(items[k].DictItem? && items[k].id.Some?)
    ensures Convert(s, m, token, field, fetch, parse) == Outcome(Some(""), m, [])
  {
    NoItemIds(items);
  }

  lemma {:induction false} NoItemIds(items: seq<Item>)
    requires forall k :: 0 <= k < |items| ==> !(items[k].DictItem? && items[k].id.Some?)
    ensures ItemIds(items) == []
  {
    if items != [] {
      NoItemIds(items[..|items| - 1]);
    }
  }

  /** `{'id': True}` is the id 1: a cached label for 1 is returned. */
  lemma BoolIdExample(s: string, m: map<int, string>, token: string, field: string, fetch: Fetcher,
                      parse: string -> Literal)
    requires FindIds(s) == [] && parse(s) == DictLit(Some(BoolLit(true))) && 1 in m
    ensures Convert(s, m, token, field, fetch, parse) == Outcome(Some(m[1]), m, [])
  {
    assert LookupAll([1], m, token, field, fetch) == Pass([Cached(m[1])], m, []);
  }

  /** `[{'id': 5.0}]` resolves the id 5: int() truncates the float. */
  lemma FloatIdExample(s: string, m: map<int, string>, token: string, field: string, fetch: Fetcher,
                       parse: string -> Literal)
    requires FindIds(s) == [] && parse(s) == ListLit([DictItem(Some(FloatLit(Some(5), "5.0")))]) && 5 in m
    ensures Convert(s, m, token, field, fetch, parse) == Outcome(Some(m[5]), m, [])
  {
    var vs := [FloatLit(Some(5), "5.0")];
    assert ItemIds([DictItem(Some(FloatLit(Some(5), "5.0")))]) == vs;
    assert Convertible(vs) == 1;
    assert vs[..1] == vs && Ints(vs) == [5];
    assert LookupAll([5], m, token, field, fetch) == Pass([Cached(m[5])], m, []);
  }

  /** A plain number is not a reference, a list or a dict: `"5"` comes back
      as `"5"`. */
  lemma PlainNumberExample(m: map<int, string>, token: string, field: string, fetch: Fetcher, parse: string -> Literal)
    requires parse("5") == OtherLiteral
    ensures Convert("5", m, token, field, fetch, parse) == Outcome(Some("5"), m, [])
  {
    assert FindIds("5") == [] by {
      assert !MatchAt("5", 0);
    }
  }

  lemma ZeroSevenRefs()
    ensures RefIds(Token("007")) == [7]
  {
    FindTokens(["007"], "");
    assert Tokens(["007"], "") == Token("007");
    assert DigitsValue("007") == 7 by {
      assert "007"[..2] == "00" && "00"[..1] == "0";
    }
  }

  /** `{id=007}` with an empty cache and no token shows the id as int()
      reads it and str() writes it: `7`. */
  lemma LeadingZerosExample(field: string, fetch: Fetcher, parse: string -> Literal)
    ensures Convert(Token("007"), map[], "", field, fetch, parse).value == Some("7")
  {
    var s := Token("007");
    ZeroSevenRefs();
    ConvertIdRefs(s, map[], "", field, fetch, parse);
    assert Grown(map[], [7], "", field, fetch) == map[];
  }

  /** `ItemIds` distributes over concatenation. */
  lemma {:induction false} ItemIdsAppend(a: seq<Item>, b: seq<Item>)
    ensures ItemIds(a + b) == ItemIds(a) + ItemIds(b)
  {
    if b == [] {
      assert a + b == a;
    } else {
      var n := |b| - 1;
      assert (a + b)[..|a + b| - 1] == a + b[..n];
      ItemIdsAppend(a, b[..n]);
      var t := if b[n].DictItem? && b[n].id.Some? then [b[n].id.value] else [];
      assert ItemIds(a) + ItemIds(b[..n]) + t == ItemIds(a) + (ItemIds(b[..n]) + t);
    }
  }

  /** int() stops the list loop at the first value it rejects. */
  lemma {:induction false} ConvertibleStop(a: seq<IdLit>, v: IdLit, rest: seq<IdLit>)
    requires forall k :: 0 <= k < |a| ==> ToInt(a[k]).Some?
    requires ToInt(v).None?
    ensures Convertible(a + [v] + rest) == |a|
  {
    if a == [] {
      assert (a + [v] + rest)[0] == v;
    } else {
      assert (a + [v] + rest)[1..] == a[1..] + [v] + rest;
      ConvertibleStop(a[1..], v, rest);
    }
  }

  /** With every value accepted, the loop runs to the end. */
  lemma {:induction false} ConvertibleAll(vs: seq<IdLit>)
    requires forall k :: 0 <= k < |vs| ==> ToInt(vs[k]).Some?
    ensures Convertible(vs) == |vs|
  {
    if vs != [] {
      ConvertibleAll(vs[1..]);
    }
  }

  /** One more lookup at the end of a pass. */
  lemma PassSnoc(ids: seq<int>, i: nat, m: map<int, string>, token: string, field: string, fetch: Fetcher)
    requires i < |ids|
    ensures var p, q := LookupAll(ids[..i], m, token, field, fetch), LookupAll(ids[..i + 1], m, token, field, fetch);
            var l := LookupId(p.cache, token, field, ids[i], fetch);
            q == Pass(p.found + [l], Stored(p.cache, ids[i], l), p.attempts + (if Attempted(l) then [ids[i]] else []))
  {
    assert ids[..i + 1][..i] == ids[..i];
  }

  /** One more `'id'` value at the end of the list loop. */
  lemma ListSnoc(vs: seq<IdLit>, v: IdLit, m: map<int, string>, token: string, field: string, fetch: Fetcher)
    requires forall k :: 0 <= k < |vs| ==> ToInt(vs[k]).Some?
    requires ToInt(v).Some?
    ensures forall k :: 0 <= k < |vs + [v]| ==> ToInt((vs + [v])[k]).Some?
    ensures var p, q := LookupAll(Ints(vs), m, token, field, fetch), LookupAll(Ints(vs + [v]), m, token, field, fetch);
            var n := ToInt(v).value;
            var l := LookupId(p.cache, token, field, n, fetch);
            && q.cache == Stored(p.cache, n, l)
            && q.attempts == p.attempts + (if Attempted(l) then [n] else [])
            && ItemValues(vs + [v], q.found) == ItemValues(vs, p.found) + [ItemValue(v, l)]
  {
    var ns := Ints(vs + [v]);
    IntsSnoc(vs, v);
    PassSnoc(ns, |vs|, m, token, field, fetch);
    assert ns[..|vs| + 1] == ns;
    var p := LookupAll(Ints(vs), m, token, field, fetch);
    ItemValuesSnoc(vs, v, p.found, LookupId(p.cache, token, field, ToInt(v).value, fetch));
  }

  lemma IntsSnoc(vs: seq<IdLit>, v: IdLit)
    requires forall k :: 0 <= k < |vs| ==> ToInt(vs[k]).Some?
    requires ToInt(v).Some?
    ensures forall k :: 0 <= k < |vs + [v]| ==> ToInt((vs + [v])[k]).Some?
    ensures Ints(vs + [v])[..|vs|] == Ints(vs) && Ints(vs + [v])[|vs|] == ToInt(v).value
  {
  }

  lemma ItemValuesSnoc(vs: seq<IdLit>, v: IdLit, found: seq<Lookup>, l: Lookup)
    requires |found| == |vs|
    ensures ItemValues(vs + [v], found + [l]) == ItemValues(vs, found) + [ItemValue(v, l)]
  {
  }

  lemma Assoc(a: seq<int>, b: seq<int>, c: seq<int>)
    ensures a + (b + c) == a + b + c
  {
  }

  /** One more item at the end of the list loop. */
  lemma ItemIdsSnoc(items: seq<Item>, j: nat)
    requires j < |items|
    ensures ItemIds(items[..j + 1])
            == ItemIds(items[..j]) + if items[j].DictItem? && items[j].id.Some? then [items[j].id.value] else []
  {
    assert items[..j + 1][..j] == items[..j];
  }

  /** The list loop meets a dict whose `'id'` value int() rejects: the
      values before it are exactly those the lookups ran over. */
  lemma ListRejectedAt(items: seq<Item>, j: nat, v: IdLit)
    requires j < |items| && items[j] == DictItem(Some(v)) && ToInt(v).None?
    requires forall k :: 0 <= k < |ItemIds(items[..j])| ==> ToInt(ItemIds(items[..j])[k]).Some?
    ensures var vs, n := ItemIds(items), |ItemIds(items[..j])|;
            Convertible(vs) == n < |vs| && vs[..n] == ItemIds(items[..j])
  {
    var a, rest := items[..j], items[j + 1..];
    assert items == a + [items[j]] + rest;
    ItemIdsAppend(a + [items[j]], rest);
    ItemIdsAppend(a, [items[j]]);
    assert ItemIds([items[j]]) == [v] by {
      assert [items[j]][..0] == [];
    }
    ConvertibleStop(ItemIds(a), v, ItemIds(rest));
  }

  /** Where the list loop stops: the outcome is the raw string and the
      cache the lookups before the rejected value left. */
  lemma ConvertListStops(s: string, m: map<int, string>, token: string, field: string, fetch: Fetcher, parse: string -> Literal,
                         items: seq<Item>, j: nat, v: IdLit)
    requires FindIds(s) == [] && parse(s) == ListLit(items)
    requires j < |items| && items[j] == DictItem(Some(v)) && ToInt(v).None?
    requires forall k :: 0 <= k < |ItemIds(items[..j])| ==> ToInt(ItemIds(items[..j])[k]).Some?
    ensures var p := LookupAll(Ints(ItemIds(items[..j])), m, token, field, fetch);
            Convert(s, m, token, field, fetch, parse) == Outcome(Some(s), p.cache, p.attempts)
  {
    ListRejectedAt(items, j, v);
  }

  /** The pv_maps dictionary: labels by permissible-value id, updated in
      place and shared by every conversion of an export, together with the
      ids sent to the server so far. */
  class PvCache {
    var labels: map<int, string>
    ghost var attempts: seq<int>

    constructor(initial: map<int, string>)
      ensures labels == initial && attempts == []
    {
      labels := initial;
      attempts := [];
    }

    /** `pv_maps.get(id)`, and on a miss with token and field name a fetch
        that stores the label when the server answers. */
    method Lookup(token: string, field: string, id: int, fetch: Fetcher) returns (l: Lookup)
      modifies this
      ensures l == LookupId(old(labels), token, field, id, fetch)
      ensures labels == Stored(old(labels), id, l)
      ensures attempts == old(attempts) + (if Attempted(l) then [id] else [])
    {
      if id in labels {
        return Cached(labels[id]);
      }
      if token == "" || field == "" {
        return Skipped;
      }
      attempts := attempts + [id];
      var reply := fetch(token, field, id);
      if reply.Some? {
        l := Fetched(Label(reply.value));
        labels := labels[id := l.text];
      } else {
        l := FetchFailed;
      }
    }

    /** The id-token branch: every reference is looked up in order and
        shown by its label, or by the id when the label is missing or
        empty. */
    method ResolveRefs(toks: seq<string>, token: string, field: string, fetch: Fetcher) returns (r: string)
      requires forall t :: t in toks ==> AllDigits(t)
      modifies this
      ensures var ids := IdsOf(toks);
              var p := LookupAll(ids, old(labels), token, field, fetch);
              && r == Join(seq(|ids|, k requires 0 <= k < |ids| => IdLabel(ids[k], p.found[k])), ", ")
              && labels == p.cache && attempts == old(attempts) + p.attempts
    {
      ghost var ids := IdsOf(toks);
      ghost var p := LookupAll([], old(labels), token, field, fetch);
      var values: seq<string> := [];
      var i := 0;
      while i < |toks|
        invariant 0 <= i <= |toks|
        invariant p == LookupAll(ids[..i], old(labels), token, field, fetch)
        invariant labels == p.cache && attempts == old(attempts) + p.attempts
        invariant |values| == i
        invariant forall k :: 0 <= k < i ==> values[k] == IdLabel(ids[k], p.found[k])
      {
        var id := DigitsValue(toks[i]);
        PassSnoc(ids, i, old(labels), token, field, fetch);
        var l := Lookup(token, field, id, fetch);
        ghost var values0, p0 := values, p;
        values := values + [IdLabel(id, l)];
        p := LookupAll(ids[..i + 1], old(labels), token, field, fetch);
        Assoc(old(attempts), p0.attempts, if Attempted(l) then [id] else []);
        forall k | 0 <= k <= i
          ensures values[k] == IdLabel(ids[k], p.found[k])
        {
          if k < i {
            assert values[k] == values0[k] && p.found[k] == p0.found[k];
          }
        }
        i := i + 1;
      }
      assert ids[..i] == ids;
      assert values == seq(|ids|, k requires 0 <= k < |ids| => IdLabel(ids[k], p.found[k]));
      r := Join(values, ", ");
    }
  
    /** The list branch: each dict item with an `'id'` is looked up in
        order; int() rejecting a value, or a missing label that makes the
        join fail, gives back the raw string. */
    method ResolveList(s: string, items: seq<Item>, token: string, field: string, fetch: Fetcher, parse: string -> Literal) returns (r: string)
      requires FindIds(s) == [] && parse(s) == ListLit(items)
      modifies this
      ensures var o := Convert(s, old(labels), token, field, fetch, parse);
              o.value == Some(r) && labels == o.cache && attempts == old(attempts) + o.attempts
    {
      ghost var vs: seq<IdLit> := [];
      ghost var p := LookupAll([], old(labels), token, field, fetch);
      var values: seq<Option<string>> := [];
      var j := 0;
      while j < |items|
        invariant 0 <= j <= |items|
        invariant vs == ItemIds(items[..j])
        invariant forall k :: 0 <= k < |vs| ==> ToInt(vs[k]).Some?
        invariant p == LookupAll(Ints(vs), old(labels), token, field, fetch)
        invariant labels == p.cache && attempts == old(attempts) + p.attempts
        invariant values == ItemValues(vs, p.found)
      {
        var item := items[j];
        ItemIdsSnoc(items, j);
        if item.DictItem? && item.id.Some? {
          var v := item.id.value;
          var n := ToInt(v);
          if n.None? {
            ConvertListStops(s, old(labels), token, field, fetch, parse, items, j, v);
            return s;
          }
          ListSnoc(vs, v, old(labels), token, field, fetch);
          var l := Lookup(token, field, n.value, fetch);
          Assoc(old(attempts), p.attempts, if Attempted(l) then [n.value] else []);
          values := values + [ItemValue(v, l)];
          vs := vs + [v];
          p := LookupAll(Ints(vs), old(labels), token, field, fetch);
        }
        j := j + 1;
      }
      assert items[..j] == items;
      ConvertListPass(s, old(labels), token, field, fetch, parse, items);
      if AllSome(values) {
        r := Join(Values(values), ", ");
      } else {
        r := s;
      }
    }

    /** convert_id_to_pv on the string `s`, with this cache as pv_maps. */
    method ConvertIdToPv(s: string, token: string, field: string, fetch: Fetcher, parse: string -> Literal) returns (r: Option<string>)
      modifies this
      ensures var o := Convert(s, old(labels), token, field, fetch, parse);
              r == o.value && labels == o.cache && attempts == old(attempts) + o.attempts
    {
      var toks := FindIds(s);
      if toks != [] {
        FindFromDigits(s, 0);
        var x := ResolveRefs(toks, token, field, fetch);
        assert RefIds(s) == IdsOf(toks);
        return Some(x);
      }
      match parse(s)
      case ListLit(items) =>
        var x := ResolveList(s, items, token, field, fetch, parse);
        r := Some(x);
      case DictLit(Some(v)) =>
        var n := ToInt(v);
        if n.None? {
          return Some(s);
        }
        assert [n.value][..0] == [];
        var l := Lookup(token, field, n.value, fetch);
        r := ItemValue(v, l);
        assert LookupAll([n.value], old(labels), token, field, fetch).found == [l];
      case _ =>
        r := Some(s);
    }
}
}
