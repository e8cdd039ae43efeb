/**
 * buildit(data, limit): turns the scraped artist names (data[0]) and their
 * play-count texts (data[1]) into a frame of plays indexed by artist, the
 * first `limit` artists by name and an "Other" row assigned last.
 *
 * Elements are modelled by their text, `.contents[0]`.  The table is the
 * sequence of rows of the frame that Build fills in place.  The table is
 * specified over the outcomes of parsing the count texts, ParsedCounts.
 */
module Buildit {
  import opened Wrappers
  import opened PlayCount
  import opened DataFrame

  /** The exception that ends buildit early. */
  datatype BuildError =
    | BadCount(position: nat, cause: ParseError)  // parsing data[1][position] raised
    | MissingCount(position: nat)                 // data[1][position] raised IndexError

  /** The label of the row that collects the plays not shown by name. */
  const Other: string := "Other"

  /** len(data[1][limit:]): how often the first loop runs. */
  function OtherSpan(counts: nat, limit: nat): (n: nat)
    ensures n <= counts
    ensures n == 0 <==> limit >= counts
  {
    if limit < counts then counts - limit else 0
  }

  /** len(data[0][:limit]): how often the second loop runs. */
  function KeptSpan(names: nat, limit: nat): (k: nat)
    ensures k <= names && k <= limit
    ensures k == limit || k == names
  {
    if limit < names then limit else names
  }

  /** The outcome of parsing one count text; a successful parse is never negative. */
  function Parsed(text: string): Result<nat, ParseError> {
    match ParseCount(text)
    case Success(v) => Success(v)
    case Failure(e) => Failure(e)
  }

  /** The outcome of parsing each count text, position by position. */
  function ParsedCounts(counts: seq<string>): (ps: seq<Result<nat, ParseError>>)
    ensures |ps| == |counts|
  {
    if counts == [] then [] else ParsedCounts(counts[..|counts| - 1]) + [Parsed(counts[|counts| - 1])]
  }

  lemma {:induction false} ParsedCountsAt(counts: seq<string>, u: nat)
    requires u < |counts|
    ensures ParsedCounts(counts)[u] == Parsed(counts[u])
  {
    if u < |counts| - 1 {
      ParsedCountsAt(counts[..|counts| - 1], u);
    }
  }

  predicate AllParse(ps: seq<Result<nat, ParseError>>) {
    forall i :: 0 <= i < |ps| ==> ps[i].Success?
  }

  /** The sum of the plays of counts that all parse. */
  function TotalPlays(ps: seq<Result<nat, ParseError>>): nat
    requires AllParse(ps)
  {
    if ps == [] then 0 else TotalPlays(ps[..|ps| - 1]) + ps[|ps| - 1].value
  }

  function Sum(vals: seq<nat>): nat {
    if vals == [] then 0 else Sum(vals[..|vals| - 1]) + vals[|vals| - 1]
  }

  function RowsTotal(rows: seq<Row>): nat {
    if rows == [] then 0 else RowsTotal(rows[..|rows| - 1]) + rows[|rows| - 1].plays
  }

  /**
   * The plays of the parsed counts in order, as a loop over them collects
   * them, the counts being those of data[1] from position `at` on; the first
   * count that does not parse ends the loop with its position.
   */
  function Collect(ps: seq<Result<nat, ParseError>>, at: nat): (r: Result<seq<nat>, BuildError>)
    ensures r.Success? <==> AllParse(ps)
    ensures r.Success? ==> |r.value| == |ps| && forall i :: 0 <= i < |ps| ==> r.value[i] == ps[i].value
    ensures r.Failure? ==> r.error.BadCount? && at <= r.error.position < at + |ps|
    ensures r.Failure? ==> ps[r.error.position - at] == Failure(r.error.cause)
    ensures r.Failure? ==> forall i :: 0 <= i < r.error.position - at ==> ps[i].Success?
  {
    if ps == [] then Success([])
    else
      var init := ps[..|ps| - 1];
      assert forall i :: 0 <= i < |init| ==> init[i] == ps[i];
      match Collect(init, at)
      case Failure(e) => Failure(e)
      case Success(vals) =>
        match ps[|ps| - 1]
        case Failure(e) => Failure(BadCount(at + |ps| - 1, e))
        case Success(v) => Success(vals + [v])
  }

  /** The effect of the second loop: each name in turn gets its plays. */
  function AssignAll(names: seq<string>, vals: seq<nat>): seq<Row>
    requires |names| == |vals|
  {
    if names == [] then []
    else Assign(AssignAll(names[..|names| - 1], vals[..|vals| - 1]), names[|names| - 1], vals[|vals| - 1])
  }

  /** The labels in the order of their first occurrence. */
  function FirstOccurrences(ls: seq<string>): (r: seq<string>)
    ensures forall x :: x in r <==> x in ls
    ensures Distinct(r)
  {
    if ls == [] then []
    else
      var p := FirstOccurrences(ls[..|ls| - 1]);
      assert forall x :: x in ls <==> x in ls[..|ls| - 1] || x == ls[|ls| - 1] by {
        assert ls == ls[..|ls| - 1] + [ls[|ls| - 1]];
      }
      if ls[|ls| - 1] in p then p else p + [ls[|ls| - 1]]
  }

  /** The last position holding `key`. */
  function LastIndexOf(ls: seq<string>, key: string): (r: Option<nat>)
    ensures r.None? <==> key !in ls
    ensures r.Some? ==> r.value < |ls| && ls[r.value] == key
    ensures r.Some? ==> forall i :: r.value < i < |ls| ==> ls[i] != key
  {
    if ls == [] then None
    else if ls[|ls| - 1] == key then Some(|ls| - 1)
    else
      assert ls == ls[..|ls| - 1] + [ls[|ls| - 1]];
      LastIndexOf(ls[..|ls| - 1], key)
  }

  /** The plays of the kept positions, or the exception the second loop raises. */
  function KeptValues(names: seq<string>, ps: seq<Result<nat, ParseError>>, limit: nat): (r: Result<seq<nat>, BuildError>)
    ensures r.Success? ==> KeptSpan(|names|, limit) <= |ps| && |r.value| == KeptSpan(|names|, limit)
  {
    var k := KeptSpan(|names|, limit);
    if k <= |ps| then Collect(ps[..k], 0)
    else
      match Collect(ps, 0)
      case Failure(e) => Failure(e)
      case Success(_) => Failure(MissingCount(|ps|))
  }

  /** The frame buildit returns, given the outcome of the first loop. */
  function Tabulate(names: seq<string>, ps: seq<Result<nat, ParseError>>, limit: nat,
                    others: Result<seq<nat>, BuildError>): Result<seq<Row>, BuildError>
  {
    var otherVals :- others;
    var keptVals :- KeptValues(names, ps, limit);
    Success(Assign(AssignAll(names[..KeptSpan(|names|, limit)], keptVals), Other, Sum(otherVals)))
  }

  /**
   * What buildit returns as written, on the parsed counts `ps`: the first
   * loop reads data[1][u] for u counted from 0, so "Other" sums the first
   * OtherSpan counts.
   */
  function Table(names: seq<string>, ps: seq<Result<nat, ParseError>>, limit: nat): Result<seq<Row>, BuildError> {
    Tabulate(names, ps, limit, Collect(ps[..OtherSpan(|ps|, limit)], 0))
  }

  /**
   * The inputs on which buildit returns normally: data[1] holds a count for
   * every kept name, and every count either loop reads parses.
   */
  predicate Parses(names: seq<string>, ps: seq<Result<nat, ParseError>>, limit: nat) {
    && KeptSpan(|names|, limit) <= |ps|
    && AllParse(ps[..OtherSpan(|ps|, limit)])
    && AllParse(ps[..KeptSpan(|names|, limit)])
  }

  // ---------------------------------------------------------------------
  // The imperative original
  // ---------------------------------------------------------------------

  /** buildit(data, limit), with data[0] as `names` and data[1] as `counts`. */
  method Build(names: seq<string>, counts: seq<string>, limit: nat) returns (r: Result<seq<Row>, BuildError>)
    ensures r == Table(names, ParsedCounts(counts), limit)
    ensures r.Success? ==> Distinct(Labels(r.value))
  {
    ghost var ps := ParsedCounts(counts);
    var otherSum: nat := 0;
    var u := 0;
    var span := OtherSpan(|counts|, limit);
    ghost var others: seq<nat> := [];
    while u < span
      invariant u <= span
      invariant Collect(ps[..u], 0) == Success(others)
      invariant otherSum == Sum(others)
    {
      var c := Parse(counts, u);
      if c.Failure? {
        OtherLoopFails(names, ps, limit, u);
        return Failure(BadCount(u, c.error));
      }
      CollectExtend(ps, u, 0);
      otherSum := otherSum + c.value;
      others := others + [c.value];
      u := u + 1;
    }

    var frame := new Frame();
    var kept := KeptSpan(|names|, limit);
    ghost var vals: seq<nat> := [];
    u := 0;
    while u < kept
      invariant u <= kept && u <= |counts|
      invariant Collect(ps[..u], 0) == Success(vals)
      invariant frame.Valid() && frame.rows == AssignAll(names[..u], vals)
    {
      if u == |counts| {
        KeptLoopMisses(names, ps, limit, others);
        return Failure(MissingCount(u));
      }
      var c := Parse(counts, u);
      if c.Failure? {
        KeptLoopFails(names, ps, limit, others, u);
        return Failure(BadCount(u, c.error));
      }
      CollectExtend(ps, u, 0);
      frame.SetRow(names[u], c.value);
      AssignAllExtend(names, vals, u, c.value);
      vals := vals + [c.value];
      u := u + 1;
    }

    frame.SetRow(Other, otherSum);
    r := Success(frame.rows);
    TableOnSuccess(names, ps, limit, others, vals);
  }

  /** int(re.search(r'[0-9].*', data[1][u].contents[0]).group(0).replace(',', '')) */
  method Parse(counts: seq<string>, u: nat) returns (c: Result<nat, ParseError>)
    requires u < |counts|
    ensures c == ParsedCounts(counts)[u]
  {
    c := Parsed(counts[u]);
    ParsedCountsAt(counts, u);
  }

  lemma AssignAllExtend(names: seq<string>, vals: seq<nat>, u: nat, v: nat)
    requires u < |names| && |vals| == u
    ensures AssignAll(names[..u + 1], vals + [v]) == Assign(AssignAll(names[..u], vals), names[u], v)
  {
    assert names[..u + 1][..u] == names[..u];
    assert (vals + [v])[..u] == vals;
  }

  lemma OtherLoopFails(names: seq<string>, ps: seq<Result<nat, ParseError>>, limit: nat, u: nat)
    requires u < OtherSpan(|ps|, limit)
    requires Collect(ps[..u], 0).Success? && ps[u].Failure?
    ensures Table(names, ps, limit) == Failure(BadCount(u, ps[u].error))
  {
    CollectFailsAt(ps, u, OtherSpan(|ps|, limit), 0);
  }

  lemma KeptLoopFails(names: seq<string>, ps: seq<Result<nat, ParseError>>, limit: nat, others: seq<nat>, u: nat)
    requires Collect(ps[..OtherSpan(|ps|, limit)], 0) == Success(others)
    requires u < KeptSpan(|names|, limit) && u < |ps|
    requires Collect(ps[..u], 0).Success? && ps[u].Failure?
    ensures Table(names, ps, limit) == Failure(BadCount(u, ps[u].error))
  {
    var k := KeptSpan(|names|, limit);
    if k <= |ps| {
      CollectFailsAt(ps, u, k, 0);
    } else {
      CollectFailsAt(ps, u, |ps|, 0);
      assert ps[..|ps|] == ps;
    }
  }

  lemma KeptLoopMisses(names: seq<string>, ps: seq<Result<nat, ParseError>>, limit: nat, others: seq<nat>)
    requires Collect(ps[..OtherSpan(|ps|, limit)], 0) == Success(others)
    requires |ps| < KeptSpan(|names|, limit)
    requires Collect(ps[..|ps|], 0).Success?
    ensures Table(names, ps, limit) == Failure(MissingCount(|ps|))
  {
    assert ps[..|ps|] == ps;
  }

  lemma TableOnSuccess(names: seq<string>, ps: seq<Result<nat, ParseError>>, limit: nat, others: seq<nat>, vals: seq<nat>)
    requires Collect(ps[..OtherSpan(|ps|, limit)], 0) == Success(others)
    requires KeptSpan(|names|, limit) <= |ps|
    requires Collect(ps[..KeptSpan(|names|, limit)], 0) == Success(vals)
    ensures |vals| == KeptSpan(|names|, limit)
    ensures Table(names, ps, limit) == Success(Assign(AssignAll(names[..|vals|], vals), Other, Sum(others)))
  {
  }

  lemma CollectExtend(ps: seq<Result<nat, ParseError>>, u: nat, at: nat)
    requires u < |ps|
    requires Collect(ps[..u], at).Success? && ps[u].Success?
    ensures Collect(ps[..u + 1], at) == Success(Collect(ps[..u], at).value + [ps[u].value])
  {
    assert ps[..u + 1][..u] == ps[..u];
  }

  lemma CollectFailsAt(ps: seq<Result<nat, ParseError>>, u: nat, m: nat, at: nat)
    requires u < m <= |ps|
    requires Collect(ps[..u], at).Success? && ps[u].Failure?
    ensures Collect(ps[..m], at) == Failure(BadCount(at + u, ps[u].error))
  {
    var r := Collect(ps[..m], at);
    assert ps[..m][u] == ps[u];
    assert forall i :: 0 <= i < u ==> ps[..u][i] == ps[i];
    if r.Failure? {
      var p := r.error.position - at;
      assert ps[..m][p] == ps[p];
      assert forall i :: 0 <= i < p ==> ps[..m][i] == ps[i];
    }
  }

  // ---------------------------------------------------------------------
  // Successive assignments to the frame
  // ---------------------------------------------------------------------

  lemma FirstOccurrencesAppend(ls: seq<string>, x: string)
    ensures FirstOccurrences(ls + [x]) == if x in ls then FirstOccurrences(ls) else FirstOccurrences(ls) + [x]
  {
    assert (ls + [x])[..|ls|] == ls;
  }

  lemma {:induction false} FirstOccurrencesOfDistinct(ls: seq<string>)
    requires Distinct(ls)
    ensures FirstOccurrences(ls) == ls
  {
    if ls != [] {
      var init := ls[..|ls| - 1];
      assert Distinct(init);
      FirstOccurrencesOfDistinct(init);
      assert ls == init + [ls[|ls| - 1]];
      FirstOccurrencesAppend(init, ls[|ls| - 1]);
    }
  }

  /** Rows appear in the order in which their labels first occur. */
  lemma {:induction false} AssignAllLabels(ns: seq<string>, vs: seq<nat>)
    requires |ns| == |vs|
    ensures Labels(AssignAll(ns, vs)) == FirstOccurrences(ns)
    ensures Distinct(Labels(AssignAll(ns, vs)))
  {
    if ns != [] {
      var n := |ns| - 1;
      var init := ns[..n];
      AssignAllLabels(init, vs[..n]);
      AssignLabels(AssignAll(init, vs[..n]), ns[n], vs[n]);
      assert ns == init + [ns[n]];
      FirstOccurrencesAppend(init, ns[n]);
    }
  }

  /** A label holds the plays of the last position that assigned it. */
  lemma {:induction false} AssignAllLookup(ns: seq<string>, vs: seq<nat>, key: string)
    requires |ns| == |vs|
    ensures Lookup(AssignAll(ns, vs), key) == match LastIndexOf(ns, key)
      case None => None
      case Some(j) => Some(vs[j])
  {
    if ns != [] {
      var n := |ns| - 1;
      var init := ns[..n];
      AssignAllLookup(init, vs[..n], key);
      AssignLookup(AssignAll(init, vs[..n]), ns[n], vs[n], key);
      if ns[n] != key {
        assert LastIndexOf(ns, key) == LastIndexOf(init, key);
      }
    }
  }

  /** With distinct names, row i is the i-th name with the i-th plays. */
  lemma {:induction false} AssignAllDistinct(ns: seq<string>, vs: seq<nat>)
    requires |ns| == |vs| && Distinct(ns)
    ensures |AssignAll(ns, vs)| == |ns|
    ensures forall i :: 0 <= i < |ns| ==> AssignAll(ns, vs)[i] == Row(ns[i], vs[i])
  {
    if ns != [] {
      var n := |ns| - 1;
      var init := ns[..n];
      assert Distinct(init) by {
        assert forall i :: 0 <= i < n ==> init[i] == ns[i];
      }
      AssignAllDistinct(init, vs[..n]);
      AssignAllFresh(init, vs[..n], ns[n]);
      AssignLabels(AssignAll(init, vs[..n]), ns[n], vs[n]);
      assert AssignAll(ns, vs) == AssignAll(init, vs[..n]) + [Row(ns[n], vs[n])];
    }
  }

  lemma AssignAllFresh(ns: seq<string>, vs: seq<nat>, key: string)
    requires |ns| == |vs| && key !in ns
    ensures key !in Labels(AssignAll(ns, vs))
  {
    AssignAllLabels(ns, vs);
  }

  lemma {:induction false} RowsTotalOfPairs(rows: seq<Row>, vs: seq<nat>)
    requires |rows| == |vs| && forall i :: 0 <= i < |vs| ==> rows[i].plays == vs[i]
    ensures RowsTotal(rows) == Sum(vs)
  {
    if rows != [] {
      RowsTotalOfPairs(rows[..|rows| - 1], vs[..|vs| - 1]);
    }
  }

  lemma {:induction false} SumOfCollected(ps: seq<Result<nat, ParseError>>, at: nat)
    requires AllParse(ps)
    ensures Sum(Collect(ps, at).value) == TotalPlays(ps)
  {
    if ps != [] {
      var init := ps[..|ps| - 1];
      assert AllParse(init) by {
        assert forall i :: 0 <= i < |init| ==> init[i] == ps[i];
      }
      SumOfCollected(init, at);
      var vals := Collect(ps, at).value;
      assert vals[..|vals| - 1] == Collect(init, at).value;
    }
  }

  lemma {:induction false} TotalPlaysSplit(ps: seq<Result<nat, ParseError>>, k: nat)
    requires AllParse(ps) && k <= |ps|
    ensures AllParse(ps[..k]) && AllParse(ps[k..])
    ensures TotalPlays(ps) == TotalPlays(ps[..k]) + TotalPlays(ps[k..])
    decreases |ps|
  {
    AllParseSlices(ps, k);
    if k == |ps| {
      assert ps[..k] == ps && ps[k..] == [];
    } else {
      var n := |ps| - 1;
      var init := ps[..n];
      AllParseSlices(ps, n);
      TotalPlaysSplit(init, k);
      assert init[..k] == ps[..k];
      assert ps[k..][..n - k] == init[k..];
    }
  }

  lemma AllParseSlices(ps: seq<Result<nat, ParseError>>, k: nat)
    requires AllParse(ps) && k <= |ps|
    ensures AllParse(ps[..k]) && AllParse(ps[k..])
  {
    assert forall i :: 0 <= i < k ==> ps[..k][i] == ps[i];
    assert forall i :: 0 <= i < |ps| - k ==> ps[k..][i] == ps[k + i];
  }

  // ---------------------------------------------------------------------
  // What buildit returns
  // ---------------------------------------------------------------------

  /**
   * buildit returns normally exactly when data[1] holds a count for every
   * kept name and every count either loop reads parses.
   */
  lemma TableSucceedsIff(names: seq<string>, ps: seq<Result<nat, ParseError>>, limit: nat)
    ensures Table(names, ps, limit).Success? <==> Parses(names, ps, limit)
  {
    assert KeptSpan(|names|, limit) > |ps| && Collect(ps, 0).Success? ==> KeptValues(names, ps, limit).Failure?;
  }

  /**
   * The exception buildit raises names the first count that does not parse
   * among those its loops read, or, when they all parse, the first kept
   * position past the end of data[1].
   */
  lemma TableFailure(names: seq<string>, ps: seq<Result<nat, ParseError>>, limit: nat)
    requires Table(names, ps, limit).Failure?
    ensures match Table(names, ps, limit).error
      case BadCount(p, e) =>
        && (p < OtherSpan(|ps|, limit) || p < KeptSpan(|names|, limit))
        && p < |ps| && ps[p] == Failure(e) && AllParse(ps[..p])
      case MissingCount(p) =>
        p == |ps| && |ps| < KeptSpan(|names|, limit) && AllParse(ps)
  {
    var span, k := OtherSpan(|ps|, limit), KeptSpan(|names|, limit);
    var others := Collect(ps[..span], 0);
    if others.Failure? {
      var p := others.error.position;
      assert ps[..span][p] == ps[p];
      assert forall i :: 0 <= i < p ==> ps[..p][i] == ps[..span][i];
    } else if k <= |ps| {
      var kept := Collect(ps[..k], 0);
      var p := kept.error.position;
      assert ps[..k][p] == ps[p];
      assert forall i :: 0 <= i < p ==> ps[..p][i] == ps[..k][i];
    } else {
      var all := Collect(ps, 0);
      if all.Failure? {
        var p := all.error.position;
        assert forall i :: 0 <= i < p ==> ps[..p][i] == ps[i];
      }
    }
  }

  /** On success the frame is the kept names assigned in turn, then "Other". */
  lemma TableRows(names: seq<string>, ps: seq<Result<nat, ParseError>>, limit: nat)
    requires Parses(names, ps, limit)
    ensures Collect(ps[..KeptSpan(|names|, limit)], 0).Success?
    ensures Table(names, ps, limit) == Success(Assign(
      AssignAll(names[..KeptSpan(|names|, limit)], Collect(ps[..KeptSpan(|names|, limit)], 0).value),
      Other, TotalPlays(ps[..OtherSpan(|ps|, limit)])))
  {
    SumOfCollected(ps[..OtherSpan(|ps|, limit)], 0);
  }

  /**
   * The "Other" row holds the sum of the plays at positions 0 to
   * OtherSpan - 1, which is 0 when limit covers every count.
   */
  lemma TableOther(names: seq<string>, ps: seq<Result<nat, ParseError>>, limit: nat)
    requires Parses(names, ps, limit)
    ensures Table(names, ps, limit).Success?
    ensures Lookup(Table(names, ps, limit).value, Other) == Some(TotalPlays(ps[..OtherSpan(|ps|, limit)]))
    ensures limit >= |ps| ==> Lookup(Table(names, ps, limit).value, Other) == Some(0)
  {
    var span, k := OtherSpan(|ps|, limit), KeptSpan(|names|, limit);
    TableRows(names, ps, limit);
    AssignLookup(AssignAll(names[..k], Collect(ps[..k], 0).value), Other, TotalPlays(ps[..span]), Other);
    if limit >= |ps| {
      assert ps[..span] == [];
    }
  }

  /**
   * The rows are the kept names and then "Other", each label once, in
   * the order of its first assignment; nothing is sorted.
   */
  lemma TableLabels(names: seq<string>, ps: seq<Result<nat, ParseError>>, limit: nat)
    requires Parses(names, ps, limit)
    ensures Table(names, ps, limit).Success?
    ensures Labels(Table(names, ps, limit).value) == FirstOccurrences(names[..KeptSpan(|names|, limit)] + [Other])
    ensures Distinct(Labels(Table(names, ps, limit).value))
  {
    var k := KeptSpan(|names|, limit);
    TableRows(names, ps, limit);
    var vals := Collect(ps[..k], 0).value;
    AssignAllLabels(names[..k], vals);
    AssignLabels(AssignAll(names[..k], vals), Other, TotalPlays(ps[..OtherSpan(|ps|, limit)]));
    FirstOccurrencesAppend(names[..k], Other);
  }

  /**
   * Every label but "Other" maps to the plays of the last kept position
   * holding that name, and a name never kept has no row.
   */
  lemma TableLookup(names: seq<string>, ps: seq<Result<nat, ParseError>>, limit: nat, key: string)
    requires Parses(names, ps, limit) && key != Other
    ensures Table(names, ps, limit).Success?
    ensures Lookup(Table(names, ps, limit).value, key) ==
      match LastIndexOf(names[..KeptSpan(|names|, limit)], key)
      case None => None
      case Some(j) => Some(ps[j].value)
  {
    var k := KeptSpan(|names|, limit);
    TableRows(names, ps, limit);
    var vals := Collect(ps[..k], 0).value;
    AssignAllLookup(names[..k], vals, key);
    AssignLookup(AssignAll(names[..k], vals), Other, TotalPlays(ps[..OtherSpan(|ps|, limit)]), key);
    match LastIndexOf(names[..k], key)
    case None =>
    case Some(j) => assert ps[..k][j] == ps[j];
  }

  /** Distinct names, none of them "Other", assigned in turn and then "Other". */
  lemma DistinctFrame(ns: seq<string>, vs: seq<nat>, total: nat)
    requires |ns| == |vs| && Distinct(ns) && Other !in ns
    ensures var rows := Assign(AssignAll(ns, vs), Other, total);
      && |rows| == |ns| + 1
      && (forall i :: 0 <= i < |ns| ==> rows[i] == Row(ns[i], vs[i]))
      && rows[|ns|] == Row(Other, total)
      && RowsTotal(rows) == Sum(vs) + total
  {
    var front := AssignAll(ns, vs);
    AssignAllDistinct(ns, vs);
    AssignAllFresh(ns, vs, Other);
    AssignLabels(front, Other, total);
    var rows := front + [Row(Other, total)];
    assert rows[..|rows| - 1] == front;
    RowsTotalOfPairs(front, vs);
  }

  /** The same frame, with the plays collected from the first k counts. */
  lemma ZippedFrame(names: seq<string>, ps: seq<Result<nat, ParseError>>, k: nat, total: nat)
    requires k <= |names| && k <= |ps| && AllParse(ps[..k])
    requires Distinct(names[..k]) && Other !in names[..k]
    ensures var rows := Assign(AssignAll(names[..k], Collect(ps[..k], 0).value), Other, total);
      && |rows| == k + 1
      && (forall i :: 0 <= i < k ==> rows[i] == Row(names[i], ps[i].value))
      && rows[k] == Row(Other, total)
      && RowsTotal(rows) == TotalPlays(ps[..k]) + total
  {
    var vals := Collect(ps[..k], 0).value;
    DistinctFrame(names[..k], vals, total);
    SumOfCollected(ps[..k], 0);
    assert forall i :: 0 <= i < k ==> names[..k][i] == names[i] && vals[i] == ps[..k][i].value == ps[i].value;
  }

  /**
   * With distinct kept names, none of them "Other", the frame has exactly
   * KeptSpan + 1 rows: row i is names[i] with the plays of counts[i], and
   * the last row is "Other".
   */
  lemma TableWithDistinctNames(names: seq<string>, ps: seq<Result<nat, ParseError>>, limit: nat)
    requires Parses(names, ps, limit)
    requires Distinct(names[..KeptSpan(|names|, limit)]) && Other !in names[..KeptSpan(|names|, limit)]
    ensures Table(names, ps, limit).Success?
    ensures var rows, k := Table(names, ps, limit).value, KeptSpan(|names|, limit);
      && |rows| == k + 1
      && (forall i :: 0 <= i < k ==> rows[i] == Row(names[i], ps[i].value))
      && rows[k] == Row(Other, TotalPlays(ps[..OtherSpan(|ps|, limit)]))
  {
    TableRows(names, ps, limit);
    ZippedFrame(names, ps, KeptSpan(|names|, limit), TotalPlays(ps[..OtherSpan(|ps|, limit)]));
  }

  // ---------------------------------------------------------------------
  // The "Other" bucket as the comment at line 7 describes it
  // ---------------------------------------------------------------------

  /** buildit with its first loop reading data[1][limit:], the counts past the kept ones. */
  function IntendedTable(names: seq<string>, ps: seq<Result<nat, ParseError>>, limit: nat): Result<seq<Row>, BuildError> {
    Tabulate(names, ps, limit, if limit < |ps| then Collect(ps[limit..], limit) else Success([]))
  }

  /**
   * The corrected buildit returns normally exactly when data[1] holds a
   * count for every kept name, and every kept count and every count past
   * `limit` parses.
   */
  lemma IntendedSucceedsIff(names: seq<string>, ps: seq<Result<nat, ParseError>>, limit: nat)
    ensures IntendedTable(names, ps, limit).Success? <==>
      && KeptSpan(|names|, limit) <= |ps|
      && (limit < |ps| ==> AllParse(ps[limit..]))
      && AllParse(ps[..KeptSpan(|names|, limit)])
  {
    assert KeptSpan(|names|, limit) > |ps| && Collect(ps, 0).Success? ==> KeptValues(names, ps, limit).Failure?;
  }

  /**
   * Grouping the counts past `limit` into "Other" conserves the plays: on a
   * listing whose counts all parse, with one count per distinct name and no
   * artist called "Other", the rows add up to the total of all counts.
   */
  lemma IntendedConservesPlays(names: seq<string>, ps: seq<Result<nat, ParseError>>, limit: nat)
    requires AllParse(ps) && |names| == |ps|
    requires Distinct(names) && Other !in names
    ensures IntendedTable(names, ps, limit).Success?
    ensures var rows, k := IntendedTable(names, ps, limit).value, KeptSpan(|names|, limit);
      && |rows| == k + 1
      && (forall i :: 0 <= i < k ==> rows[i] == Row(names[i], ps[i].value))
      && rows[k] == Row(Other, TotalPlays(ps[k..]))
      && RowsTotal(rows) == TotalPlays(ps)
  {
    var k := KeptSpan(|names|, limit);
    TotalPlaysSplit(ps, k);
    IntendedRows(names, ps, limit);
    DistinctPrefix(names, k);
    ZippedFrame(names, ps, k, TotalPlays(ps[k..]));
  }

  /** With every count parsing, the intended frame has "Other" summing the counts past `limit`. */
  lemma IntendedRows(names: seq<string>, ps: seq<Result<nat, ParseError>>, limit: nat)
    requires AllParse(ps) && |names| == |ps|
    ensures AllParse(ps[..KeptSpan(|names|, limit)]) && AllParse(ps[KeptSpan(|names|, limit)..])
    ensures IntendedTable(names, ps, limit) == Success(Assign(
      AssignAll(names[..KeptSpan(|names|, limit)], Collect(ps[..KeptSpan(|names|, limit)], 0).value),
      Other, TotalPlays(ps[KeptSpan(|names|, limit)..])))
  {
    var k := KeptSpan(|names|, limit);
    TotalPlaysSplit(ps, k);
    if limit < |ps| {
      SumOfCollected(ps[limit..], limit);
    } else {
      assert ps[k..] == [];
    }
  }

  /**
   * On three artists with plays x, y and z and limit 2, buildit as written
   * puts x, the plays of the FIRST artist, into "Other".  With x = 300,
   * y = 200, z = 100 the frame is {A: 300, B: 200, Other: 300}.
   */
  lemma AsWrittenMiscountsOther(x: nat, y: nat, z: nat)
    ensures Table(["A", "B", "C"], [Success(x), Success(y), Success(z)], 2)
      == Success([Row("A", x), Row("B", y), Row(Other, x)])
  {
    var names: seq<string> := ["A", "B", "C"];
    var ps: seq<Result<nat, ParseError>> := [Success(x), Success(y), Success(z)];
    assert ps[..2] == [Success(x), Success(y)];
    assert ps[..1] == [Success(x)] && ps[..1][..0] == [];
    assert names[..2] == ["A", "B"];
    TableWithDistinctNames(names, ps, 2);
    assert TotalPlays(ps[..1]) == x;
    var rows := Table(names, ps, 2).value;
    assert rows[0] == Row("A", x) && rows[1] == Row("B", y);
    assert rows == [Row("A", x), Row("B", y), Row(Other, x)];
  }

  /**
   * On a listing whose counts all parse, with one count per distinct name
   * and no artist called "Other", the frame as written adds up to the kept
   * counts plus the FIRST OtherSpan counts; it matches the listing's total
   * exactly when those first counts add up to the same as the counts past
   * the kept ones.
   */
  lemma AsWrittenTotal(names: seq<string>, ps: seq<Result<nat, ParseError>>, limit: nat)
    requires AllParse(ps) && |names| == |ps|
    requires Distinct(names) && Other !in names
    ensures Table(names, ps, limit).Success?
    ensures AllParse(ps[..KeptSpan(|names|, limit)]) && AllParse(ps[KeptSpan(|names|, limit)..])
    ensures var total, k := RowsTotal(Table(names, ps, limit).value), KeptSpan(|names|, limit);
      && total == TotalPlays(ps[..k]) + TotalPlays(ps[..OtherSpan(|ps|, limit)])
      && (total == TotalPlays(ps) <==> TotalPlays(ps[..OtherSpan(|ps|, limit)]) == TotalPlays(ps[k..]))
  {
    var k, o := KeptSpan(|names|, limit), OtherSpan(|ps|, limit);
    AllParseSlices(ps, k);
    AllParseSlices(ps, o);
    DistinctPrefix(names, k);
    assert Parses(names, ps, limit);
    TableTotal(names, ps, limit);
    TotalPlaysSplit(ps, k);
  }

  lemma DistinctPrefix(names: seq<string>, k: nat)
    requires k <= |names| && Distinct(names) && Other !in names
    ensures Distinct(names[..k]) && Other !in names[..k]
  {
    assert forall i :: 0 <= i < k ==> names[..k][i] == names[i];
  }

  /** With distinct kept names, none of them "Other", the frame adds up to the kept plays and "Other". */
  lemma TableTotal(names: seq<string>, ps: seq<Result<nat, ParseError>>, limit: nat)
    requires Parses(names, ps, limit)
    requires Distinct(names[..KeptSpan(|names|, limit)]) && Other !in names[..KeptSpan(|names|, limit)]
    ensures Table(names, ps, limit).Success?
    ensures RowsTotal(Table(names, ps, limit).value)
      == TotalPlays(ps[..KeptSpan(|names|, limit)]) + TotalPlays(ps[..OtherSpan(|ps|, limit)])
  {
    TableRows(names, ps, limit);
    ZippedFrame(names, ps, KeptSpan(|names|, limit), TotalPlays(ps[..OtherSpan(|ps|, limit)]));
  }

  /** So the frame of AsWrittenMiscountsOther adds up to 2x + y, which misses x + y + z whenever x != z. */
  lemma AsWrittenLosesPlays(x: nat, y: nat, z: nat)
    ensures RowsTotal([Row("A", x), Row("B", y), Row(Other, x)]) == 2 * x + y
    ensures x != z ==> RowsTotal([Row("A", x), Row("B", y), Row(Other, x)]) != TotalPlays([Success(x), Success(y), Success(z)])
  {
    RowsTotalOfThree(Row("A", x), Row("B", y), Row(Other, x));
    TotalPlaysOfThree(x, y, z);
  }

  lemma RowsTotalOfThree(a: Row, b: Row, c: Row)
    ensures RowsTotal([a, b, c]) == a.plays + b.plays + c.plays
  {
    var rows := [a, b, c];
    assert rows[..2] == [a, b] && rows[..2][..1] == [a] && rows[..2][..1][..0] == [];
    assert RowsTotal(rows[..2][..1]) == a.plays;
    assert RowsTotal(rows[..2]) == a.plays + b.plays;
  }

  lemma TotalPlaysOfThree(x: nat, y: nat, z: nat)
    ensures TotalPlays([Success(x), Success(y), Success(z)]) == x + y + z
  {
    var ps: seq<Result<nat, ParseError>> := [Success(x), Success(y), Success(z)];
    assert ps[..2] == [Success(x), Success(y)] && ps[..2][..1] == [Success(x)] && ps[..2][..1][..0] == [];
    assert TotalPlays(ps[..2][..1]) == x;
    assert TotalPlays(ps[..2]) == x + y;
  }

  /**
   * On the same listing the intended frame has z, the plays of the one
   * artist past the limit, in "Other": {A: 300, B: 200, Other: 100}.
   */
  lemma IntendedCountsOther(x: nat, y: nat, z: nat)
    ensures IntendedTable(["A", "B", "C"], [Success(x), Success(y), Success(z)], 2)
      == Success([Row("A", x), Row("B", y), Row(Other, z)])
  {
    var names: seq<string> := ["A", "B", "C"];
    var ps: seq<Result<nat, ParseError>> := [Success(x), Success(y), Success(z)];
    assert ps[2..] == [Success(z)] && ps[2..][..0] == [];
    assert Other !in names;
    IntendedConservesPlays(names, ps, 2);
    assert TotalPlays(ps[2..]) == z;
    var rows := IntendedTable(names, ps, 2).value;
    assert rows[0] == Row("A", x) && rows[1] == Row("B", y);
    assert rows == [Row("A", x), Row("B", y), Row(Other, z)];
  }

  /** The play counts of `plays` as Last.fm prints them, with thousands separators. */
  function GroupedTexts(plays: seq<nat>): (texts: seq<string>)
    ensures |texts| == |plays|
  {
    if plays == [] then [] else GroupedTexts(plays[..|plays| - 1]) + [Grouped(plays[|plays| - 1])]
  }

  function Successes(plays: seq<nat>): (ps: seq<Result<nat, ParseError>>)
    ensures |ps| == |plays|
  {
    if plays == [] then [] else Successes(plays[..|plays| - 1]) + [Success(plays[|plays| - 1])]
  }

  /** Every comma-grouped count text parses back to its number. */
  lemma {:induction false} GroupedTextsParse(plays: seq<nat>)
    ensures ParsedCounts(GroupedTexts(plays)) == Successes(plays)
  {
    if plays != [] {
      var n := |plays| - 1;
      var texts := GroupedTexts(plays);
      GroupedTextsParse(plays[..n]);
      assert texts[..n] == GroupedTexts(plays[..n]);
      GroupedParses(plays[n]);
    }
  }

  lemma GroupedParses(n: nat)
    ensures Parsed(Grouped(n)) == Success(n)
  {
    assert "" + Grouped(n) + "" + "" == Grouped(n);
    GroupedRoundTrip("", n, "", "");
  }
}
