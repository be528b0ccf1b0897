/** The template-resolution engine of `execute_query`: pick the stored
    templates whose type has indicators, keep those that mention `$1`, and
    substitute the `|`-joined defanged indicators for every `$1`. */
module Resolution {
  import opened Text
  import opened Defanging
  import opened Rows

  const Placeholder := "$1"
  const Separator := "|"

  /** The three query types that the engine looks up. */
  predicate IsIndicatorType(t: string) {
    t == "domain" || t == "hash" || t == "filename"
  }

  /** `filter(QueryModel.query_type == t).all()`: the templates of type `t`,
      in storage order. */
  function OfType(qs: seq<Query>, t: string): (r: seq<Query>)
    ensures |r| <= |qs|
    ensures forall q :: q in r ==> q.queryType == t
  {
    if qs == [] then []
    else
      var q := qs[|qs| - 1];
      OfType(qs[..|qs| - 1], t) + (if q.queryType == t then [q] else [])
  }

  /** The type filter keeps exactly the stored templates of that type. */
  lemma {:induction false} OfTypeMembers(qs: seq<Query>, t: string)
    ensures forall q :: q in OfType(qs, t) <==> q in qs && q.queryType == t
  {
    if qs != [] {
      var init := qs[..|qs| - 1];
      OfTypeMembers(init, t);
      assert qs == init + [qs[|qs| - 1]];
    }
  }

  /** The type filter keeps the storage order. */
  lemma {:induction false} OfTypeAppend(a: seq<Query>, b: seq<Query>, t: string)
    ensures OfType(a + b, t) == OfType(a, t) + OfType(b, t)
    decreases |b|
  {
    if b == [] {
      assert a + b == a;
    } else {
      var b' := b[..|b| - 1];
      var q := b[|b| - 1];
      var tail := if q.queryType == t then [q] else [];
      OfTypeAppend(a, b', t);
      assert (a + b)[..|a + b| - 1] == a + b';
      assert (a + b)[|a + b| - 1] == q;
      assert OfType(a + b, t) == OfType(a + b', t) + tail;
      assert OfType(b, t) == OfType(b', t) + tail;
      assert OfType(a, t) + (OfType(b', t) + tail) == (OfType(a, t) + OfType(b', t)) + tail;
    }
  }

  /** The indicators of the template's own type. */
  function IndicatorsFor(t: string, domains: seq<string>, hashes: seq<string>, filenames: seq<string>): seq<string>
    requires IsIndicatorType(t)
  {
    if t == "domain" then domains else if t == "hash" then hashes else filenames
  }

  /** The templates that are looked up: every domain template if there are
      domains, then every hash template if there are hashes, then every
      filename template if there are filenames. */
  function SelectRelevant(qs: seq<Query>, domains: seq<string>, hashes: seq<string>, filenames: seq<string>): (r: seq<Query>)
    ensures forall q :: q in r ==> IsIndicatorType(q.queryType)
  {
    (if domains != [] then OfType(qs, "domain") else [])
    + (if hashes != [] then OfType(qs, "hash") else [])
    + (if filenames != [] then OfType(qs, "filename") else [])
  }

  /** A template is selected exactly when its type is one of the three and
      indicators of that type were found. */
  lemma SelectRelevantMembers(qs: seq<Query>, domains: seq<string>, hashes: seq<string>, filenames: seq<string>)
    ensures forall q :: q in SelectRelevant(qs, domains, hashes, filenames) <==>
      q in qs && IsIndicatorType(q.queryType) && IndicatorsFor(q.queryType, domains, hashes, filenames) != []
  {
    OfTypeMembers(qs, "domain");
    OfTypeMembers(qs, "hash");
    OfTypeMembers(qs, "filename");
  }

  /** The position of a type's group in the selection. */
  function GroupRank(t: string): nat {
    if t == "domain" then 0 else if t == "hash" then 1 else 2
  }

  /** No template comes after one of a later group. */
  predicate Grouped(r: seq<Query>) {
    forall i, j :: 0 <= i < j < |r| ==> GroupRank(r[i].queryType) <= GroupRank(r[j].queryType)
  }

  /** Templates of one type are trivially grouped. */
  lemma UniformGrouped(r: seq<Query>, t: string)
    requires forall q :: q in r ==> q.queryType == t
    ensures Grouped(r)
  {
    forall i, j | 0 <= i < j < |r| ensures GroupRank(r[i].queryType) <= GroupRank(r[j].queryType) {
      assert r[i] in r && r[j] in r;
    }
  }

  /** Two grouped runs, the first of no later group than the second, stay grouped. */
  lemma GroupedConcat(x: seq<Query>, y: seq<Query>)
    requires Grouped(x) && Grouped(y)
    requires forall p, q :: p in x && q in y ==> GroupRank(p.queryType) <= GroupRank(q.queryType)
    ensures Grouped(x + y)
  {
    var r := x + y;
    forall i, j | 0 <= i < j < |r| ensures GroupRank(r[i].queryType) <= GroupRank(r[j].queryType) {
      if j < |x| {
        assert r[i] == x[i] && r[j] == x[j];
      } else if i >= |x| {
        assert r[i] == y[i - |x|] && r[j] == y[j - |x|];
      } else {
        assert r[i] == x[i] && r[j] == y[j - |x|];
        assert r[i] in x && r[j] in y;
      }
    }
  }

  /** The selection lists all domain templates, then all hash templates,
      then all filename templates. */
  lemma SelectRelevantGrouped(qs: seq<Query>, domains: seq<string>, hashes: seq<string>, filenames: seq<string>)
    ensures Grouped(SelectRelevant(qs, domains, hashes, filenames))
  {
    var a := if domains != [] then OfType(qs, "domain") else [];
    var b := if hashes != [] then OfType(qs, "hash") else [];
    var c := if filenames != [] then OfType(qs, "filename") else [];
    assert forall q :: q in a ==> GroupRank(q.queryType) == 0;
    assert forall q :: q in b ==> GroupRank(q.queryType) == 1;
    assert forall q :: q in c ==> GroupRank(q.queryType) == 2;
    UniformGrouped(a, "domain");
    UniformGrouped(b, "hash");
    UniformGrouped(c, "filename");
    GroupedConcat(a, b);
    assert forall q :: q in a + b ==> GroupRank(q.queryType) <= 1;
    GroupedConcat(a + b, c);
    assert SelectRelevant(qs, domains, hashes, filenames) == (a + b) + c;
  }

  /** The defanged indicators joined with `|`: empty without indicators,
      the one defanged indicator when there is one. */
  function DataList(values: seq<string>): (r: string)
    ensures values == [] ==> r == []
    ensures |values| == 1 ==> r == Defang(values[0])
  {
    Join(Separator, seq(|values|, i requires 0 <= i < |values| => Defang(values[i])))
  }

  /** Indicators without brackets are joined with `|` exactly as they are. */
  lemma DataListNoBrackets(values: seq<string>)
    requires forall i, j :: 0 <= i < |values| && 0 <= j < |values[i]| ==> values[i][j] != '['
    ensures DataList(values) == Join(Separator, values)
  {
    forall i | 0 <= i < |values| ensures Defang(values[i]) == values[i] {
      DefangNoBracket(values[i]);
    }
    assert seq(|values|, i requires 0 <= i < |values| => Defang(values[i])) == values;
  }

  /** What one resolved template contributes: its id, its text with every
      `$1` replaced, and its category. */
  datatype Resolved = Resolved(queryId: nat, finalQuery: string, category: string)

  /** A template resolves under its own id and category; a template
      without `$1` would keep its text. */
  function ResolveOne(q: Query, domains: seq<string>, hashes: seq<string>, filenames: seq<string>): (r: Resolved)
    requires IsIndicatorType(q.queryType)
    ensures r.queryId == q.id && r.category == q.category
    ensures !Contains(q.query, Placeholder) ==> r.finalQuery == q.query
  {
    var data := DataList(IndicatorsFor(q.queryType, domains, hashes, filenames));
    assert !Contains(q.query, Placeholder) ==> Replace(q.query, Placeholder, data) == q.query by {
      if !Contains(q.query, Placeholder) {
        ReplaceAbsent(q.query, Placeholder, data);
      }
    }
    Resolved(q.id, Replace(q.query, Placeholder, data), q.category)
  }

  /** The resolution loop over the selected templates, in their order. */
  function ResolveAll(rel: seq<Query>, domains: seq<string>, hashes: seq<string>, filenames: seq<string>): (r: seq<Resolved>)
    requires forall q :: q in rel ==> IsIndicatorType(q.queryType)
    ensures |r| <= |rel|
  {
    if rel == [] then []
    else
      var q := rel[|rel| - 1];
      ResolveAll(rel[..|rel| - 1], domains, hashes, filenames)
      + (if Contains(q.query, Placeholder) then [ResolveOne(q, domains, hashes, filenames)] else [])
  }

  /** The resolution loop keeps the selection order: resolving two runs of
      templates one after the other gives the results of the first run,
      then those of the second. */
  lemma {:induction false} ResolveAllAppend(a: seq<Query>, b: seq<Query>, domains: seq<string>, hashes: seq<string>, filenames: seq<string>)
    requires forall q :: q in a ==> IsIndicatorType(q.queryType)
    requires forall q :: q in b ==> IsIndicatorType(q.queryType)
    ensures ResolveAll(a + b, domains, hashes, filenames)
         == ResolveAll(a, domains, hashes, filenames) + ResolveAll(b, domains, hashes, filenames)
    decreases |b|
  {
    if b == [] {
      assert a + b == a;
    } else {
      var b' := b[..|b| - 1];
      var q := b[|b| - 1];
      assert forall x :: x in b' ==> x in b;
      var tail := if Contains(q.query, Placeholder) then [ResolveOne(q, domains, hashes, filenames)] else [];
      ResolveAllAppend(a, b', domains, hashes, filenames);
      assert (a + b)[..|a + b| - 1] == a + b';
      assert (a + b)[|a + b| - 1] == q;
      assert ResolveAll(a + b, domains, hashes, filenames) == ResolveAll(a + b', domains, hashes, filenames) + tail;
      assert ResolveAll(b, domains, hashes, filenames) == ResolveAll(b', domains, hashes, filenames) + tail;
      var ra := ResolveAll(a, domains, hashes, filenames);
      var rb := ResolveAll(b', domains, hashes, filenames);
      assert ra + (rb + tail) == (ra + rb) + tail;
    }
  }

  /** A selected template yields a result exactly when it contains `$1`. */
  lemma {:induction false} ResolveAllMembers(rel: seq<Query>, domains: seq<string>, hashes: seq<string>, filenames: seq<string>)
    requires forall q :: q in rel ==> IsIndicatorType(q.queryType)
    ensures forall r :: r in ResolveAll(rel, domains, hashes, filenames) <==>
      exists q :: q in rel && Contains(q.query, Placeholder) && r == ResolveOne(q, domains, hashes, filenames)
  {
    if rel != [] {
      var init := rel[..|rel| - 1];
      ResolveAllMembers(init, domains, hashes, filenames);
      assert rel == init + [rel[|rel| - 1]];
    }
  }

  /** Everything the engine resolves for one advisory. */
  function Resolve(qs: seq<Query>, domains: seq<string>, hashes: seq<string>, filenames: seq<string>): (r: seq<Resolved>)
    ensures domains == [] && hashes == [] && filenames == [] ==> r == []
  {
    ResolveAll(SelectRelevant(qs, domains, hashes, filenames), domains, hashes, filenames)
  }

  /** A selected template always has indicators of its own type, so its
      data list is built from a non-empty list. */
  lemma SelectedIndicators(qs: seq<Query>, domains: seq<string>, hashes: seq<string>, filenames: seq<string>, q: Query)
    requires q in SelectRelevant(qs, domains, hashes, filenames)
    ensures q in qs && IsIndicatorType(q.queryType)
    ensures IndicatorsFor(q.queryType, domains, hashes, filenames) != []
  {
    SelectRelevantMembers(qs, domains, hashes, filenames);
  }

  /** A result comes from exactly a stored template of one of the three
      types, for which indicators were found, and which contains `$1`; a
      template without `$1` never produces one. */
  lemma ResolveMembers(qs: seq<Query>, domains: seq<string>, hashes: seq<string>, filenames: seq<string>)
    ensures forall r :: r in Resolve(qs, domains, hashes, filenames) <==>
      exists q :: q in qs && IsIndicatorType(q.queryType) && IndicatorsFor(q.queryType, domains, hashes, filenames) != []
                  && Contains(q.query, Placeholder) && r == ResolveOne(q, domains, hashes, filenames)
  {
    SelectRelevantMembers(qs, domains, hashes, filenames);
    ResolveAllMembers(SelectRelevant(qs, domains, hashes, filenames), domains, hashes, filenames);
  }

  /** The resolved text is the template cut at every `$1` and glued back
      with the data list: no occurrence is left in place. */
  lemma ResolveOneEveryPlaceholder(q: Query, domains: seq<string>, hashes: seq<string>, filenames: seq<string>)
    requires IsIndicatorType(q.queryType)
    ensures ResolveOne(q, domains, hashes, filenames).finalQuery ==
      Join(DataList(IndicatorsFor(q.queryType, domains, hashes, filenames)), Split(q.query, Placeholder))
  {
    ReplaceIsJoinSplit(q.query, Placeholder, DataList(IndicatorsFor(q.queryType, domains, hashes, filenames)));
  }

  /** The resolution loop distributes over the selected templates. */
  lemma ResolveAllSnoc(rel: seq<Query>, k: nat, domains: seq<string>, hashes: seq<string>, filenames: seq<string>)
    requires k < |rel| && forall q :: q in rel ==> IsIndicatorType(q.queryType)
    ensures ResolveAll(rel[..k + 1], domains, hashes, filenames) ==
      ResolveAll(rel[..k], domains, hashes, filenames)
      + (if Contains(rel[k].query, Placeholder) then [ResolveOne(rel[k], domains, hashes, filenames)] else [])
  {
    assert rel[..k + 1][..k] == rel[..k];
  }

  /** Two indicators without brackets are joined as they are. */
  lemma DataListPlain(a: string, b: string)
    requires forall i :: 0 <= i < |a| ==> a[i] != '['
    requires forall i :: 0 <= i < |b| ==> b[i] != '['
    ensures DataList([a, b]) == a + Separator + b
  {
    DefangNoBracket(a);
    DefangNoBracket(b);
    var values := [a, b];
    var defanged := seq(|values|, i requires 0 <= i < |values| => Defang(values[i]));
    assert defanged == values;
    JoinCons(Separator, a, [b]);
  }

  lemma PlaceholderExample()
    ensures Contains("find $1", Placeholder)
  {
    assert OccursAt("find $1", "$1", 5) by { assert "find $1"[5..7] == "$1"; }
  }

  /** A template whose only `$` is that of a final `$1` gets the data list
      in its place. */
  lemma SubstituteTail(prefix: string, data: string)
    requires forall i :: 0 <= i < |prefix| ==> prefix[i] != '$'
    ensures Replace(prefix + Placeholder, Placeholder, data) == prefix + data
  {
    assert Replace(Placeholder, Placeholder, data) == data by {
      assert StartsWith(Placeholder, Placeholder);
      assert Placeholder[2..] == "";
    }
    ReplaceConcatPlain(prefix, Placeholder, Placeholder, data);
  }

  /** A single template of a type with indicators, containing `$1`,
      resolves to exactly one result. */
  lemma ResolveSingle(q: Query, domains: seq<string>, hashes: seq<string>, filenames: seq<string>)
    requires IsIndicatorType(q.queryType) && IndicatorsFor(q.queryType, domains, hashes, filenames) != []
    requires Contains(q.query, Placeholder)
    ensures Resolve([q], domains, hashes, filenames) == [ResolveOne(q, domains, hashes, filenames)]
  {
    OfTypeSingle(q, "domain");
    OfTypeSingle(q, "hash");
    OfTypeSingle(q, "filename");
    assert SelectRelevant([q], domains, hashes, filenames) == [q];
    assert [q][..0] == [];
    assert ResolveAll([q], domains, hashes, filenames) == [] + [ResolveOne(q, domains, hashes, filenames)];
  }

  lemma OfTypeSingle(q: Query, t: string)
    ensures OfType([q], t) == if q.queryType == t then [q] else []
  {
    assert [q][..0] == [];
  }

  /** A domain template `<prefix>$1` whose prefix holds no `$` resolves to
      the prefix followed by the data list. */
  lemma ResolveOneTail(q: Query, prefix: string, domains: seq<string>, hashes: seq<string>, filenames: seq<string>)
    requires q.queryType == "domain" && q.query == prefix + Placeholder
    requires forall i :: 0 <= i < |prefix| ==> prefix[i] != '$'
    ensures ResolveOne(q, domains, hashes, filenames).finalQuery == prefix + DataList(domains)
  {
    SubstituteTail(prefix, DataList(domains));
  }

  /** A domain template `find $1` on its own resolves to `find ` followed
      by the data list. */
  lemma ResolveFind(q: Query, domains: seq<string>)
    requires q.queryType == "domain" && q.query == "find $1" && domains != []
    ensures Resolve([q], domains, [], []) == [Resolved(q.id, "find " + DataList(domains), q.category)]
  {
    PlaceholderExample();
    ResolveSingle(q, domains, [], []);
    FindOne(q, domains);
  }

  lemma FindOne(q: Query, domains: seq<string>)
    requires q.queryType == "domain" && q.query == "find $1"
    ensures ResolveOne(q, domains, [], []) == Resolved(q.id, "find " + DataList(domains), q.category)
  {
    assert q.query == "find " + Placeholder;
    ResolveOneTail(q, "find ", domains, [], []);
  }

  /** The worked example, for any two bracket-free domains such as `a.com`
      and `b.com`: the domain template `find $1` resolves to `find a.com|b.com`. */
  lemma ResolveTwoDomains(q: Query, a: string, b: string)
    requires q.queryType == "domain" && q.query == "find $1"
    requires forall i :: 0 <= i < |a| ==> a[i] != '['
    requires forall i :: 0 <= i < |b| ==> b[i] != '['
    ensures Resolve([q], [a, b], [], []) == [Resolved(q.id, "find " + a + "|" + b, q.category)]
  {
    ResolveFind(q, [a, b]);
    DataListPlain(a, b);
    assert "find " + (a + Separator + b) == "find " + a + "|" + b;
  }
}
