/**
 * The trade filters kept in the page's URL
 * (frontend/src/app/(authed)/dashboard/trades/page.tsx:43-76). A query is the
 * list of its decoded name-value pairs.
 */
module TradeFilters {
  import opened Prelude

  datatype Pair = Pair(name: string, value: string)

  /** The casts in readFilters check nothing, so side and sort are any strings. */
  datatype Filters = Filters(instruments: seq<string>, side: string, start: Option<string>, end: Option<string>,
                             sortBy: string, sortDir: string)

  // ---- strings ---------------------------------------------------------------

  /** The characters String.prototype.trim removes. */
  predicate IsSpace(c: char) {
    || c in "\t\n\r \U{B}\U{C}\U{A0}\U{1680}\U{2028}\U{2029}\U{202F}\U{205F}\U{3000}\U{FEFF}"
    || '\U{2000}' <= c <= '\U{200A}'
  }

  function Trim(s: string): string
    decreases |s|
  {
    if s == [] then []
    else if IsSpace(s[0]) then Trim(s[1..])
    else if IsSpace(s[|s| - 1]) then Trim(s[..|s| - 1])
    else s
  }

  function Split(s: string, c: char): (r: seq<string>)
    ensures r != []
    decreases |s|
  {
    if s == [] then [[]]
    else
      var rest := Split(s[1..], c);
      if s[0] == c then [[]] + rest else [[s[0]] + rest[0]] + rest[1..]
  }

  function Join(xs: seq<string>, c: char): string {
    if xs == [] then [] else if |xs| == 1 then xs[0] else xs[0] + [c] + Join(xs[1..], c)
  }

  function TrimOne(x: string): seq<string> {
    if Trim(x) != [] then [Trim(x)] else []
  }

  /** What f makes of each, one after the other. */
  function EachBy(f: string -> seq<string>, xs: seq<string>): seq<string> {
    if xs == [] then [] else EachBy(f, xs[..|xs| - 1]) + f(xs[|xs| - 1])
  }

  function TrimAll(xs: seq<string>): seq<string> {
    EachBy(TrimOne, xs)
  }

  // ---- URLSearchParams -------------------------------------------------------

  function Get(params: seq<Pair>, name: string): Option<string> {
    if params == [] then None
    else if params[0].name == name then Some(params[0].value)
    else Get(params[1..], name)
  }

  function WithoutName(params: seq<Pair>, name: string): seq<Pair> {
    if params == [] then []
    else (if params[0].name == name then [] else [params[0]]) + WithoutName(params[1..], name)
  }

  function SetPair(params: seq<Pair>, name: string, value: string): seq<Pair> {
    if params == [] then [Pair(name, value)]
    else if params[0].name == name then [Pair(name, value)] + WithoutName(params[1..], name)
    else [params[0]] + SetPair(params[1..], name, value)
  }

  class UrlSearchParams {
    var pairs: seq<Pair>

    constructor ()
      ensures pairs == []
    {
      pairs := [];
    }

    /** Replaces the first pair of that name and drops the others, or appends. */
    method Set(name: string, value: string)
      modifies this
      ensures pairs == SetPair(old(pairs), name, value)
    {
      var i := 0;
      while i < |pairs| && pairs[i].name != name
        invariant 0 <= i <= |pairs| && pairs == old(pairs)
        invariant SetPair(pairs, name, value) == pairs[..i] + SetPair(pairs[i..], name, value)
      {
        SetPairNext(pairs, i, name, value);
        i := i + 1;
      }
      SetPairHere(pairs, i, name, value);
      if i == |pairs| {
        pairs := pairs + [Pair(name, value)];
      } else {
        pairs := pairs[..i] + ([Pair(name, value)] + WithoutName(pairs[i + 1..], name));
      }
    }
  }

  lemma SetPairNext(params: seq<Pair>, i: nat, name: string, value: string)
    requires i < |params| && params[i].name != name
    ensures params[..i] + SetPair(params[i..], name, value) == params[..i + 1] + SetPair(params[i + 1..], name, value)
  {
    assert params[i..][1..] == params[i + 1..];
    assert params[..i] + [params[i]] == params[..i + 1];
  }

  lemma SetPairHere(params: seq<Pair>, i: nat, name: string, value: string)
    requires i <= |params| && (i < |params| ==> params[i].name == name)
    ensures params[..i] + SetPair(params[i..], name, value) ==
      if i == |params| then params + [Pair(name, value)]
      else params[..i] + ([Pair(name, value)] + WithoutName(params[i + 1..], name))
  {
    if i == |params| {
      assert params[i..] == [] && params[..i] == params;
    } else {
      assert params[i..][1..] == params[i + 1..];
    }
  }

  // ---- reading and writing ---------------------------------------------------

  function OrElse(v: Option<string>, default: string): string {
    if v.Some? then v.value else default
  }

  function ReadFilters(params: seq<Pair>): Filters {
    Filters(TrimAll(Split(OrElse(Get(params, "instruments"), ""), ',')),
            OrElse(Get(params, "side"), "all"),
            Get(params, "from"),
            Get(params, "to"),
            OrElse(Get(params, "sort_by"), "ts"),
            OrElse(Get(params, "sort_dir"), "desc"))
  }

  predicate Given(v: Option<string>) {
    v.Some? && v.value != []
  }

  /** A filter setting: whether the URL needs it, and how it is written there. */
  datatype Setting = Setting(shown: bool, name: string, value: string)

  function Settings(f: Filters): seq<Setting> {
    [Setting(f.instruments != [], "instruments", Join(f.instruments, ',')),
     Setting(f.side != "all", "side", f.side),
     Setting(Given(f.start), "from", OrElse(f.start, "")),
     Setting(Given(f.end), "to", OrElse(f.end, "")),
     Setting(f.sortBy != "ts", "sort_by", f.sortBy),
     Setting(f.sortDir != "desc", "sort_dir", f.sortDir)]
  }

  function Shown(settings: seq<Setting>): seq<Pair> {
    if settings == [] then []
    else
      var last := settings[|settings| - 1];
      Shown(settings[..|settings| - 1]) + if last.shown then [Pair(last.name, last.value)] else []
  }

  /** What a written query consists of: the settings that are not the default, in a fixed order. */
  function Written(f: Filters): seq<Pair> {
    Shown(Settings(f))
  }

  ghost predicate DistinctNames(settings: seq<Setting>) {
    forall i, j :: 0 <= i < j < |settings| ==> settings[i].name != settings[j].name
  }

  lemma SettingsDistinct(f: Filters)
    ensures DistinctNames(Settings(f))
  {
  }

  lemma {:induction false} ShownNames(settings: seq<Setting>, p: Pair)
    requires p in Shown(settings)
    ensures exists i :: 0 <= i < |settings| && settings[i].name == p.name
  {
    var n := |settings| - 1;
    if p in Shown(settings[..n]) {
      ShownNames(settings[..n], p);
    } else {
      assert settings[n].name == p.name;
    }
  }

  lemma {:induction false} SetAppends(params: seq<Pair>, name: string, value: string)
    requires forall p :: p in params ==> p.name != name
    ensures SetPair(params, name, value) == params + [Pair(name, value)]
    ensures Get(params, name) == None && Get(params + [Pair(name, value)], name) == Some(value)
  {
    if params != [] {
      assert params[0] in params;
      SetAppends(params[1..], name, value);
      assert (params + [Pair(name, value)])[1..] == params[1..] + [Pair(name, value)];
    }
  }

  lemma {:induction false} GetBefore(params: seq<Pair>, p: Pair, name: string)
    requires p.name != name
    ensures Get(params + [p], name) == Get(params, name)
  {
    if params != [] {
      GetBefore(params[1..], p, name);
      assert (params + [p])[1..] == params[1..] + [p];
    }
  }

  /** Setting number k goes to the end of those before it. */
  lemma ShownNext(settings: seq<Setting>, k: nat)
    requires DistinctNames(settings) && k < |settings|
    ensures var s, before := settings[k], Shown(settings[..k]);
      && Shown(settings[..k + 1]) == (if s.shown then SetPair(before, s.name, s.value) else before)
      && Get(before, s.name) == None
      && Get(Shown(settings[..k + 1]), s.name) == (if s.shown then Some(s.value) else None)
  {
    var s, before := settings[k], Shown(settings[..k]);
    assert settings[..k + 1][..k] == settings[..k];
    forall p | p in before ensures p.name != s.name {
      ShownNames(settings[..k], p);
    }
    SetAppends(before, s.name, s.value);
  }

  /** What parameter i of a written query reads back as. */
  lemma {:induction false} ShownGet(settings: seq<Setting>, k: nat, i: nat)
    requires DistinctNames(settings) && i < k <= |settings|
    ensures Get(Shown(settings[..k]), settings[i].name) == if settings[i].shown then Some(settings[i].value) else None
    decreases k
  {
    ShownNext(settings, k - 1);
    if i < k - 1 {
      var s, before := settings[k - 1], Shown(settings[..k - 1]);
      ShownGet(settings, k - 1, i);
      assert settings[..k][..k - 1] == settings[..k - 1];
      GetBefore(before, Pair(s.name, s.value), settings[i].name);
    }
  }

  /** The query once the first k settings are written. */
  ghost function WrittenUpTo(f: Filters, k: nat): seq<Pair>
    requires k <= 6
  {
    Shown(Settings(f)[..k])
  }

  lemma WrittenNext(f: Filters, k: nat)
    requires k < 6
    ensures var s, before := Settings(f)[k], WrittenUpTo(f, k);
      WrittenUpTo(f, k + 1) == if s.shown then SetPair(before, s.name, s.value) else before
    ensures WrittenUpTo(f, 0) == [] && WrittenUpTo(f, 6) == Written(f)
  {
    SettingsDistinct(f);
    ShownNext(Settings(f), k);
    assert Settings(f)[..6] == Settings(f);
  }

  /** One line of writeFilters: set the parameter unless the setting is the default. */
  method SetIf(params: UrlSearchParams, ghost f: Filters, ghost k: nat, shown: bool, name: string, value: string)
    requires k < 6 && Settings(f)[k] == Setting(shown, name, value)
    requires params.pairs == WrittenUpTo(f, k)
    modifies params
    ensures params.pairs == WrittenUpTo(f, k + 1)
    ensures k == 5 ==> params.pairs == Written(f)
  {
    WrittenNext(f, k);
    if shown {
      params.Set(name, value);
    }
  }

  method WriteFilters(f: Filters) returns (query: seq<Pair>)
    ensures query == Written(f)
  {
    WrittenNext(f, 0);
    var params := new UrlSearchParams();
    SetIf(params, f, 0, |f.instruments| != 0, "instruments", Join(f.instruments, ','));
    SetIf(params, f, 1, f.side != "all", "side", f.side);
    SetIf(params, f, 2, Given(f.start), "from", OrElse(f.start, ""));
    SetIf(params, f, 3, Given(f.end), "to", OrElse(f.end, ""));
    SetIf(params, f, 4, f.sortBy != "ts", "sort_by", f.sortBy);
    SetIf(params, f, 5, f.sortDir != "desc", "sort_dir", f.sortDir);
    query := params.pairs;
  }

  // ---- round trips -----------------------------------------------------------

  lemma {:induction false} SplitPlain(s: string, c: char)
    requires c !in s
    ensures Split(s, c) == [s]
  {
    if s != [] {
      SplitPlain(s[1..], c);
      assert [s[0]] + s[1..] == s;
    }
  }

  lemma {:induction false} SplitAtFirst(a: string, rest: string, c: char)
    requires c !in a
    ensures Split(a + [c] + rest, c) == [a] + Split(rest, c)
  {
    var s := a + [c] + rest;
    if a == [] {
      assert s[1..] == rest;
    } else {
      SplitAtFirst(a[1..], rest, c);
      assert s[1..] == a[1..] + [c] + rest;
      assert [s[0]] + a[1..] == a;
    }
  }

  lemma {:induction false} SplitJoin(xs: seq<string>, c: char)
    requires xs != [] && forall i :: 0 <= i < |xs| ==> c !in xs[i]
    ensures Split(Join(xs, c), c) == xs
  {
    if |xs| == 1 {
      SplitPlain(xs[0], c);
    } else {
      SplitJoin(xs[1..], c);
      SplitAtFirst(xs[0], Join(xs[1..], c), c);
    }
  }

  lemma {:induction false} SplitHasNo(s: string, c: char)
    ensures forall i :: 0 <= i < |Split(s, c)| ==> c !in Split(s, c)[i]
  {
    if s != [] {
      SplitHasNo(s[1..], c);
    }
  }

  predicate Trimmed(s: string) {
    s != [] && !IsSpace(s[0]) && !IsSpace(s[|s| - 1])
  }

  lemma {:induction false} TrimMeaning(s: string)
    ensures Trim(s) == [] || Trimmed(Trim(s))
    ensures forall c :: c in Trim(s) ==> c in s
    decreases |s|
  {
    if s != [] {
      if IsSpace(s[0]) {
        TrimMeaning(s[1..]);
      } else if IsSpace(s[|s| - 1]) {
        TrimMeaning(s[..|s| - 1]);
      }
    }
  }

  /** s is mid between white space. */
  ghost predicate Padded(s: string, left: string, mid: string, right: string) {
    s == left + mid + right && forall c :: c in left || c in right ==> IsSpace(c)
  }

  lemma PadLeft(s: string, left: string, mid: string, right: string)
    requires s != [] && IsSpace(s[0]) && Padded(s[1..], left, mid, right)
    ensures Padded(s, [s[0]] + left, mid, right)
  {
    assert s == [s[0]] + s[1..];
  }

  lemma PadRight(s: string, left: string, mid: string, right: string)
    requires s != [] && IsSpace(s[|s| - 1]) && Padded(s[..|s| - 1], left, mid, right)
    ensures Padded(s, left, mid, right + [s[|s| - 1]])
  {
    assert s == s[..|s| - 1] + [s[|s| - 1]];
  }

  /** What trimming takes off is white space on both sides, and nothing that it leaves ends in any. */
  lemma {:induction false} TrimExact(s: string) returns (left: string, right: string)
    ensures Padded(s, left, Trim(s), right) && (Trim(s) == [] || Trimmed(Trim(s)))
    decreases |s|
  {
    left, right := [], [];
    if s != [] {
      if IsSpace(s[0]) {
        left, right := TrimExact(s[1..]);
        PadLeft(s, left, Trim(s), right);
        left := [s[0]] + left;
      } else if IsSpace(s[|s| - 1]) {
        left, right := TrimExact(s[..|s| - 1]);
        PadRight(s, left, Trim(s), right);
        right := right + [s[|s| - 1]];
      }
    }
  }

  /** The code points that count as white space. */
  lemma SpaceCodes(c: char)
    ensures IsSpace(c) <==>
      var n := c as int;
      n == 9 || n == 10 || n == 11 || n == 12 || n == 13 || n == 32 || n == 160 || n == 5760 || 8192 <= n <= 8202
      || n == 8232 || n == 8233 || n == 8239 || n == 8287 || n == 12288 || n == 65279
  {
  }

  /** Names are trimmed one by one, in their order; what trims to nothing is left out. */
  lemma TrimAllMeaning(xs: seq<string>, x: string, ys: seq<string>)
    ensures TrimAll([]) == []
    ensures TrimAll(xs + [x] + ys) == TrimAll(xs) + (if Trim(x) == [] then [] else [Trim(x)]) + TrimAll(ys)
  {
    EachOn(TrimOne, xs + [x], ys);
    EachOn(TrimOne, xs, [x]);
    EachOfOne(TrimOne, x);
  }

  lemma {:induction false} EachOn(f: string -> seq<string>, xs: seq<string>, ys: seq<string>)
    ensures EachBy(f, xs + ys) == EachBy(f, xs) + EachBy(f, ys)
  {
    if ys == [] {
      assert xs + ys == xs;
    } else {
      EachOn(f, xs, ys[..|ys| - 1]);
      assert (xs + ys)[..|xs + ys| - 1] == xs + ys[..|ys| - 1];
    }
  }

  lemma EachOfOne(f: string -> seq<string>, x: string)
    ensures EachBy(f, [x]) == f(x)
  {
    assert [x][..0] == [];
  }

  /** A comma list is read name by name: trimmed, without those that are empty. */
  lemma NamesRead(params: seq<Pair>, names: seq<string>)
    requires names != [] && forall i :: 0 <= i < |names| ==> ',' !in names[i]
    requires Get(params, "instruments") == Some(Join(names, ','))
    ensures ReadFilters(params).instruments == TrimAll(names)
  {
    SplitJoin(names, ',');
  }

  predicate CanonicalNames(xs: seq<string>) {
    forall i :: 0 <= i < |xs| ==> Trimmed(xs[i]) && ',' !in xs[i]
  }

  lemma {:induction false} TrimAllCanonical(xs: seq<string>)
    requires forall i :: 0 <= i < |xs| ==> ',' !in xs[i]
    ensures CanonicalNames(TrimAll(xs))
  {
    if xs != [] {
      TrimMeaning(xs[|xs| - 1]);
      TrimAllCanonical(xs[..|xs| - 1]);
    }
  }

  lemma {:induction false} TrimAllFixed(xs: seq<string>)
    requires CanonicalNames(xs)
    ensures TrimAll(xs) == xs
  {
    if xs != [] {
      assert Trimmed(xs[|xs| - 1]);
      TrimAllFixed(xs[..|xs| - 1]);
      assert xs[..|xs| - 1] + [xs[|xs| - 1]] == xs;
    }
  }

  /** Names that survive the comma list: nonempty, trimmed, without commas; dates absent or nonempty. */
  predicate Canonical(f: Filters) {
    CanonicalNames(f.instruments) && f.start != Some("") && f.end != Some("")
  }

  /** What each parameter of a written query reads back as. */
  lemma WrittenGets(f: Filters)
    ensures var q := Written(f);
      && Get(q, "instruments") == (if f.instruments != [] then Some(Join(f.instruments, ',')) else None)
      && Get(q, "side") == (if f.side != "all" then Some(f.side) else None)
      && Get(q, "from") == (if Given(f.start) then f.start else None)
      && Get(q, "to") == (if Given(f.end) then f.end else None)
      && Get(q, "sort_by") == (if f.sortBy != "ts" then Some(f.sortBy) else None)
      && Get(q, "sort_dir") == (if f.sortDir != "desc" then Some(f.sortDir) else None)
  {
    var settings := Settings(f);
    SettingsDistinct(f);
    assert settings[..6] == settings;
    ShownGet(settings, 6, 0);
    ShownGet(settings, 6, 1);
    ShownGet(settings, 6, 2);
    ShownGet(settings, 6, 3);
    ShownGet(settings, 6, 4);
    ShownGet(settings, 6, 5);
  }

  lemma ReadNamesCanonical(params: seq<Pair>)
    ensures CanonicalNames(ReadFilters(params).instruments)
  {
    var text := OrElse(Get(params, "instruments"), "");
    SplitHasNo(text, ',');
    TrimAllCanonical(Split(text, ','));
  }

  /** Reading what was written: an empty date becomes none, canonical names come back as they were. */
  lemma ReadWritten(f: Filters)
    requires CanonicalNames(f.instruments)
    ensures ReadFilters(Written(f)) ==
      f.(start := if Given(f.start) then f.start else None, end := if Given(f.end) then f.end else None)
  {
    WrittenGets(f);
    if f.instruments == [] {
      assert Split("", ',') == [""] && [""][..0] == [];
      assert TrimAll([""]) == [];
    } else {
      SplitJoin(f.instruments, ',');
      TrimAllFixed(f.instruments);
    }
  }

  /** A written query reads back as the same filters if and only if they are canonical. */
  lemma RoundTripIff(f: Filters)
    ensures ReadFilters(Written(f)) == f <==> Canonical(f)
  {
    if Canonical(f) {
      ReadWritten(f);
    } else {
      WrittenGets(f);
      ReadNamesCanonical(Written(f));
    }
  }

  /** An empty query means no filter, newest first. */
  lemma EmptyQuery()
    ensures ReadFilters([]) == Filters([], "all", None, None, "ts", "desc")
  {
    assert Split("", ',') == [""] && TrimAll([""]) == [] by { assert [""][..0] == []; }
  }

  /** A query with every filter set: the names and the order of its parameters. */
  lemma FullQuery(f: Filters)
    requires f.instruments != [] && f.side != "all" && Given(f.start) && Given(f.end)
    requires f.sortBy != "ts" && f.sortDir != "desc"
    ensures Written(f) ==
      [Pair("instruments", Join(f.instruments, ',')), Pair("side", f.side), Pair("from", f.start.value),
       Pair("to", f.end.value), Pair("sort_by", f.sortBy), Pair("sort_dir", f.sortDir)]
  {
    ShownAll(Settings(f));
  }

  /** Join puts a comma between the names. */
  lemma JoinTwo(a: string, rest: seq<string>, c: char)
    ensures Join([], c) == [] && Join([a], c) == a
    ensures rest != [] ==> Join([a] + rest, c) == a + [c] + Join(rest, c)
  {
  }

  lemma {:induction false} ShownAll(settings: seq<Setting>)
    requires forall i :: 0 <= i < |settings| ==> settings[i].shown
    ensures |Shown(settings)| == |settings|
    ensures forall i :: 0 <= i < |settings| ==> Shown(settings)[i] == Pair(settings[i].name, settings[i].value)
  {
    if settings != [] {
      ShownAll(settings[..|settings| - 1]);
    }
  }

  /** A name that is there more than once reads as its first pair. */
  lemma {:induction false} GetFirst(before: seq<Pair>, p: Pair, after: seq<Pair>)
    requires forall q :: q in before ==> q.name != p.name
    ensures Get(before, p.name) == None && Get(before + [p] + after, p.name) == Some(p.value)
  {
    if before != [] {
      assert before[0] in before;
      GetFirst(before[1..], p, after);
      assert (before + [p] + after)[1..] == before[1..] + [p] + after;
    }
  }

  /** Setting a parameter changes what is read under its name, and nothing else; its name is there once. */
  lemma {:induction false} SetThenGet(params: seq<Pair>, name: string, value: string, other: string)
    ensures Get(SetPair(params, name, value), other) == if other == name then Some(value) else Get(params, other)
    ensures Get(WithoutName(params, name), other) == if other == name then None else Get(params, other)
  {
    if params != [] {
      SetThenGet(params[1..], name, value, other);
      var rest := WithoutName(params[1..], name);
      assert ([params[0]] + rest)[1..] == rest && [] + rest == rest;
      assert ([Pair(name, value)] + rest)[1..] == rest;
      assert ([params[0]] + SetPair(params[1..], name, value))[1..] == SetPair(params[1..], name, value);
    }
  }

  /** For every query whatsoever, rewriting it twice is rewriting it once. */
  lemma RewriteStable(query: seq<Pair>)
    ensures Written(ReadFilters(Written(ReadFilters(query)))) == Written(ReadFilters(query))
  {
    ReadNamesCanonical(query);
    ReadWritten(ReadFilters(query));
  }
}
