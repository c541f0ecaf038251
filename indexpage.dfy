/** The index page (frontend/pages/index.tsx): it groups the fetched releases
    by month for display and keeps the login state, driven by the outcomes of
    its calls to the endpoints.

    The month of a release's date is given by the parameter `term`, standing
    for `dayjs(date).format('YYYY.MM')`. */
module IndexPage {
  import opened Wrappers
  import opened ReleaseList
  import opened Auth

  /** The dictionary `ReleaseByTerm`: `groups` maps a term to its releases and
      `terms` lists the keys in the order the object enumerates them, which for
      keys that are not array indices (every "YYYY.MM") is the order in which
      they were created. */
  datatype ReleaseByTerm = ReleaseByTerm(terms: seq<string>, groups: map<string, seq<Release>>)

  /** One step of the `forEach` (lines 31-38): push onto the release's group, or
      create the group with the release alone. */
  function AddRelease(g: ReleaseByTerm, r: Release, term: Option<string> -> string): ReleaseByTerm
  {
    var k := term(r.date);
    if k in g.groups then ReleaseByTerm(g.terms, g.groups[k := g.groups[k] + [r]])
    else ReleaseByTerm(g.terms + [k], g.groups[k := [r]])
  }

  /** The dictionary after the `forEach` has visited every release of `rs`. */
  function Grouped(rs: seq<Release>, term: Option<string> -> string): ReleaseByTerm
    decreases |rs|
  {
    if |rs| == 0 then ReleaseByTerm([], map[])
    else AddRelease(Grouped(rs[..|rs| - 1], term), rs[|rs| - 1], term)
  }

  /** The grouping loop of `fetchData` (lines 30-39), building the dictionary in place. */
  method GroupByTerm(releases: seq<Release>, term: Option<string> -> string) returns (byTerm: ReleaseByTerm)
    ensures byTerm == Grouped(releases, term)
  {
    var terms: seq<string> := [];
    var groups: map<string, seq<Release>> := map[];
    var i := 0;
    while i < |releases|
      invariant 0 <= i <= |releases|
      invariant ReleaseByTerm(terms, groups) == Grouped(releases[..i], term)
    {
      var release := releases[i];
      var t := term(release.date);
      if t in groups {
        groups := groups[t := groups[t] + [release]];
      } else {
        terms := terms + [t];
        groups := groups[t := [release]];
      }
      assert releases[..i + 1][..i] == releases[..i];
      i := i + 1;
    }
    assert releases[..|releases|] == releases;
    byTerm := ReleaseByTerm(terms, groups);
  }

  /** Reference definition: the releases of `rs` whose term is `k`, in input order. */
  function OfTerm(rs: seq<Release>, term: Option<string> -> string, k: string): seq<Release>
    decreases |rs|
  {
    if |rs| == 0 then []
    else OfTerm(rs[..|rs| - 1], term, k) + (if term(rs[|rs| - 1].date) == k then [rs[|rs| - 1]] else [])
  }

  /** Reference definition: the position of the first release of `rs` whose term is `k`, or `|rs|`. */
  function FirstOfTerm(rs: seq<Release>, term: Option<string> -> string, k: string): (f: nat)
    ensures f <= |rs|
    ensures f < |rs| ==> term(rs[f].date) == k
    ensures forall j :: 0 <= j < f ==> term(rs[j].date) != k
  {
    if |rs| == 0 then 0
    else if term(rs[0].date) == k then 0
    else 1 + FirstOfTerm(rs[1..], term, k)
  }

  predicate Distinct(s: seq<string>)
  {
    forall a, b :: 0 <= a < b < |s| ==> s[a] != s[b]
  }

  /** The shape every grouping has: each key listed once, exactly the keys of
      the map, no empty group, and each group holds releases of its own term only. */
  ghost predicate WellFormed(g: ReleaseByTerm, term: Option<string> -> string)
  {
    && Distinct(g.terms)
    && (forall k :: k in g.groups <==> k in g.terms)
    && (forall k :: k in g.groups ==> |g.groups[k]| > 0)
    && (forall k, r :: k in g.groups && r in g.groups[k] ==> term(r.date) == k)
  }

  lemma OfTermMembers(rs: seq<Release>, term: Option<string> -> string, k: string)
    ensures forall r :: r in OfTerm(rs, term, k) ==> term(r.date) == k
    decreases |rs|
  {
    if |rs| > 0 {
      OfTermMembers(rs[..|rs| - 1], term, k);
    }
  }

  lemma {:induction false} OfTermAbsent(rs: seq<Release>, term: Option<string> -> string, k: string)
    requires forall i :: 0 <= i < |rs| ==> term(rs[i].date) != k
    ensures OfTerm(rs, term, k) == []
    decreases |rs|
  {
    if |rs| > 0 {
      var p := rs[..|rs| - 1];
      assert forall i :: 0 <= i < |p| ==> p[i] == rs[i];
      OfTermAbsent(p, term, k);
    }
  }

  /** Each key is listed once, the listed keys are those of the map, and they
      are exactly the terms that occur among the releases. */
  lemma {:induction false} GroupedKeys(rs: seq<Release>, term: Option<string> -> string)
    ensures Distinct(Grouped(rs, term).terms)
    ensures forall k :: k in Grouped(rs, term).groups <==> k in Grouped(rs, term).terms
    ensures forall k :: k in Grouped(rs, term).groups <==> exists i :: 0 <= i < |rs| && term(rs[i].date) == k
    decreases |rs|
  {
    if |rs| > 0 {
      var p, r := rs[..|rs| - 1], rs[|rs| - 1];
      GroupedKeys(p, term);
      var g := Grouped(p, term);
      var t := term(r.date);
      forall k | k != t && k !in g.groups
        ensures forall i :: 0 <= i < |rs| ==> term(rs[i].date) != k
      {
        forall i | 0 <= i < |rs| ensures term(rs[i].date) != k {
          if i < |p| {
            assert p[i] == rs[i];
          }
        }
      }
      forall k | k in g.groups
        ensures exists i :: 0 <= i < |rs| && term(rs[i].date) == k
      {
        var i :| 0 <= i < |p| && term(p[i].date) == k;
        assert rs[i] == p[i];
      }
      assert term(rs[|rs| - 1].date) == t;
    }
  }

  /** Each group is exactly the releases of its term, in input order. */
  lemma {:induction false} GroupedGroups(rs: seq<Release>, term: Option<string> -> string)
    ensures forall k :: k in Grouped(rs, term).groups ==> Grouped(rs, term).groups[k] == OfTerm(rs, term, k)
    decreases |rs|
  {
    if |rs| > 0 {
      var p, r := rs[..|rs| - 1], rs[|rs| - 1];
      GroupedGroups(p, term);
      var t := term(r.date);
      if t !in Grouped(p, term).groups {
        GroupedKeys(p, term);
        OfTermAbsent(p, term, t);
      }
    }
  }

  /** A group is only ever created holding one release and then grows, so none is empty. */
  lemma {:induction false} GroupedNonEmpty(rs: seq<Release>, term: Option<string> -> string)
    ensures forall k :: k in Grouped(rs, term).groups ==> |Grouped(rs, term).groups[k]| > 0
    decreases |rs|
  {
    if |rs| > 0 {
      GroupedNonEmpty(rs[..|rs| - 1], term);
    }
  }

  /** The grouping keeps every release, in order, in the group of its own term
      and nowhere else; the keys are exactly the terms that occur, each listed
      once, and no group is empty. */
  lemma GroupedContents(rs: seq<Release>, term: Option<string> -> string)
    ensures Distinct(Grouped(rs, term).terms)
    ensures forall k :: k in Grouped(rs, term).groups <==> k in Grouped(rs, term).terms
    ensures forall k :: k in Grouped(rs, term).groups <==> exists i :: 0 <= i < |rs| && term(rs[i].date) == k
    ensures forall k :: k in Grouped(rs, term).groups ==> Grouped(rs, term).groups[k] == OfTerm(rs, term, k)
    ensures forall k :: k in Grouped(rs, term).groups ==> |Grouped(rs, term).groups[k]| > 0
  {
    GroupedKeys(rs, term);
    GroupedGroups(rs, term);
    GroupedNonEmpty(rs, term);
  }

  /** Every grouping is well formed. */
  lemma GroupedWellFormed(rs: seq<Release>, term: Option<string> -> string)
    ensures WellFormed(Grouped(rs, term), term)
  {
    GroupedContents(rs, term);
    forall k | k in Grouped(rs, term).groups {
      OfTermMembers(rs, term, k);
    }
  }

  /** The number of releases held by the groups of `terms`. */
  function GroupSizes(terms: seq<string>, groups: map<string, seq<Release>>): nat
    decreases |terms|
  {
    if |terms| == 0 then 0
    else GroupSizes(terms[..|terms| - 1], groups)
         + (if terms[|terms| - 1] in groups then |groups[terms[|terms| - 1]]| else 0)
  }

  lemma {:induction false} GroupSizesIgnore(terms: seq<string>, groups: map<string, seq<Release>>, k: string, v: seq<Release>)
    requires k !in terms
    ensures GroupSizes(terms, groups[k := v]) == GroupSizes(terms, groups)
    decreases |terms|
  {
    if |terms| > 0 {
      GroupSizesIgnore(terms[..|terms| - 1], groups, k, v);
    }
  }

  lemma {:induction false} GroupSizesUpdate(terms: seq<string>, groups: map<string, seq<Release>>, k: string, v: seq<Release>)
    requires Distinct(terms) && k in terms && k in groups
    ensures GroupSizes(terms, groups[k := v]) == GroupSizes(terms, groups) - |groups[k]| + |v|
    decreases |terms|
  {
    var n := |terms|;
    var init := terms[..n - 1];
    if terms[n - 1] == k {
      assert k !in init by {
        forall a | 0 <= a < n - 1 ensures init[a] != k {
          assert init[a] == terms[a];
        }
      }
      GroupSizesIgnore(init, groups, k, v);
    } else {
      assert k in init by {
        var a :| 0 <= a < n && terms[a] == k;
        assert init[a] == k;
      }
      assert Distinct(init) by {
        forall a, b | 0 <= a < b < |init| ensures init[a] != init[b] {
          assert init[a] == terms[a] && init[b] == terms[b];
        }
      }
      GroupSizesUpdate(init, groups, k, v);
    }
  }

  /** The group sizes add up to the number of releases. */
  lemma {:induction false} GroupedSizes(rs: seq<Release>, term: Option<string> -> string)
    ensures GroupSizes(Grouped(rs, term).terms, Grouped(rs, term).groups) == |rs|
    decreases |rs|
  {
    if |rs| > 0 {
      var p, r := rs[..|rs| - 1], rs[|rs| - 1];
      GroupedSizes(p, term);
      GroupedKeys(p, term);
      var g := Grouped(p, term);
      var t := term(r.date);
      if t in g.groups {
        GroupSizesUpdate(g.terms, g.groups, t, g.groups[t] + [r]);
      } else {
        GroupSizesIgnore(g.terms, g.groups, t, [r]);
        assert (g.terms + [t])[..|g.terms|] == g.terms;
      }
    }
  }

  lemma FirstOfTermExtend(p: seq<Release>, r: Release, term: Option<string> -> string, k: string)
    ensures FirstOfTerm(p, term, k) < |p| ==> FirstOfTerm(p + [r], term, k) == FirstOfTerm(p, term, k)
    ensures FirstOfTerm(p, term, k) == |p| && term(r.date) == k ==> FirstOfTerm(p + [r], term, k) == |p|
  {
    var f, f' := FirstOfTerm(p, term, k), FirstOfTerm(p + [r], term, k);
    assert forall j :: 0 <= j < |p| ==> (p + [r])[j] == p[j];
    if f < |p| {
      assert (p + [r])[f] == p[f];
    }
    if f == |p| && term(r.date) == k {
      assert (p + [r])[|p|] == r;
      assert f' <= |p|;
    }
  }

  /** The keys are listed in the order in which their terms first appear among the releases. */
  lemma {:induction false} GroupedOrder(rs: seq<Release>, term: Option<string> -> string)
    ensures forall a, b :: 0 <= a < b < |Grouped(rs, term).terms| ==>
      FirstOfTerm(rs, term, Grouped(rs, term).terms[a]) < FirstOfTerm(rs, term, Grouped(rs, term).terms[b])
    ensures forall a :: 0 <= a < |Grouped(rs, term).terms| ==> FirstOfTerm(rs, term, Grouped(rs, term).terms[a]) < |rs|
    decreases |rs|
  {
    if |rs| > 0 {
      var p, r := rs[..|rs| - 1], rs[|rs| - 1];
      assert rs == p + [r];
      GroupedOrder(p, term);
      GroupedKeys(p, term);
      var g := Grouped(p, term);
      var t := term(r.date);
      var terms := Grouped(rs, term).terms;
      forall a | 0 <= a < |g.terms| ensures FirstOfTerm(rs, term, g.terms[a]) == FirstOfTerm(p, term, g.terms[a]) {
        FirstOfTermExtend(p, r, term, g.terms[a]);
      }
      if t !in g.groups {
        assert forall j :: 0 <= j < |p| ==> term(p[j].date) != t;
        FirstOfTermExtend(p, r, term, t);
        assert terms == g.terms + [t];
      }
    }
  }

  /** The outcome of `GET /api/release/list` as the page sees it: the releases,
      or an error with the HTTP status of its response (`None` when there was no
      response, or when the error came from anywhere else). */
  datatype ListFetch = Releases(releases: seq<Release>) | Failed(status: Option<int>)

  /** The outcome of a call that answers with `{ user }`: the user, or any error. */
  datatype UserFetch = Fetched(user: User) | Rejected

  /** The page's state. Each endpoint outcome is applied as one event; a
      `refetch` result says that the handler issues `fetchData` without waiting
      for it, whose outcome is a later `FetchData` event. */
  class Page {
    const term: Option<string> -> string
    var releaseByTerm: Option<ReleaseByTerm>
    var user: Option<User>
    var isLogin: bool
    var accountMenuOpen: bool

    ghost predicate Valid()
      reads this
    {
      releaseByTerm.Some? ==> WellFormed(releaseByTerm.value, term)
    }

    /** The initial state (lines 17-22): no releases, no user, assumed logged in, menu closed. */
    constructor (term: Option<string> -> string)
      ensures Valid() && this.term == term
      ensures releaseByTerm.None? && user.None? && isLogin && !accountMenuOpen
    {
      this.term := term;
      releaseByTerm := None;
      user := None;
      isLogin := true;
      accountMenuOpen := false;
    }

    /** `fetchData` (lines 26-49): on success the releases are grouped by term;
        a 401 logs the page out; any other error changes nothing. */
    method FetchData(outcome: ListFetch)
      requires Valid()
      modifies this
      ensures Valid()
      ensures outcome.Releases? ==>
        && releaseByTerm == Some(Grouped(outcome.releases, term))
        && user == old(user) && isLogin == old(isLogin) && accountMenuOpen == old(accountMenuOpen)
      ensures outcome == Failed(Some(401)) ==>
        && !isLogin && user.None?
        && releaseByTerm == old(releaseByTerm) && accountMenuOpen == old(accountMenuOpen)
      ensures outcome.Failed? && outcome != Failed(Some(401)) ==>
        && releaseByTerm == old(releaseByTerm) && user == old(user)
        && isLogin == old(isLogin) && accountMenuOpen == old(accountMenuOpen)
    {
      match outcome {
        case Releases(releases) =>
          var byTerm := GroupByTerm(releases, term);
          GroupedWellFormed(releases, term);
          releaseByTerm := Some(byTerm);
        case Failed(status) =>
          if status == Some(401) {
            isLogin := false;
            user := None;
          }
      }
    }

    /** `login` (lines 51-66): on success the page is logged in with the
        returned user and the releases are fetched; an error changes nothing. */
    method Login(outcome: UserFetch) returns (refetch: bool)
      requires Valid()
      modifies this
      ensures Valid()
      ensures refetch == outcome.Fetched?
      ensures outcome.Fetched? ==> isLogin && user == Some(outcome.user)
      ensures outcome.Rejected? ==> isLogin == old(isLogin) && user == old(user)
      ensures releaseByTerm == old(releaseByTerm) && accountMenuOpen == old(accountMenuOpen)
    {
      refetch := outcome.Fetched?;
      if outcome.Fetched? {
        isLogin := true;
        user := Some(outcome.user);
      }
    }

    /** `checkSession` (lines 68-78): on success the user is taken over and the
        releases are fetched, without touching `isLogin`; on failure the page is
        logged out but the user is left as it was. */
    method CheckSession(outcome: UserFetch) returns (refetch: bool)
      requires Valid()
      modifies this
      ensures Valid()
      ensures refetch == outcome.Fetched?
      ensures outcome.Fetched? ==> user == Some(outcome.user) && isLogin == old(isLogin)
      ensures outcome.Rejected? ==> !isLogin && user == old(user)
      ensures releaseByTerm == old(releaseByTerm) && accountMenuOpen == old(accountMenuOpen)
    {
      refetch := outcome.Fetched?;
      if outcome.Fetched? {
        user := Some(outcome.user);
      } else {
        isLogin := false;
      }
    }

    /** `logout` (lines 80-94): on success the menu closes and the page is
        logged out; an error changes nothing. */
    method Logout(succeeded: bool)
      requires Valid()
      modifies this
      ensures Valid()
      ensures succeeded ==> !accountMenuOpen && !isLogin && user.None?
      ensures !succeeded ==> accountMenuOpen == old(accountMenuOpen) && isLogin == old(isLogin) && user == old(user)
      ensures releaseByTerm == old(releaseByTerm)
    {
      if succeeded {
        accountMenuOpen := false;
        isLogin := false;
        user := None;
      }
    }
  }
}
