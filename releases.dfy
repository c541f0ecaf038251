/** The release list endpoint (frontend/pages/api/release/list.ts): it queries
    the release table for one owner address, decodes every stored record into a
    `Release` and returns the releases with the most recent date first.

    The store query is the parameter `query` (owner address to the query's
    `Items`, `None` when the response has none). Dates are compared through the
    parameter `stamp`, an abstract total order key standing for
    `dayjs(date)`. */
module ReleaseList {
  import opened Wrappers
  import opened Dynamo

  /** The owner address the handler queries: a constant, not the session's user. */
  const OwnerAddress := "revenant.jumboride@gmail.com"

  /** A release as the endpoint returns it; `None` is JSON `null`. */
  datatype Release = Release(
    artist: Option<string>,
    date: Option<string>,
    labelName: Option<string>,
    link: Option<string>,
    coverLink: Option<string>,
    title: Option<string>)

  /** The six attributes a stored release must carry. */
  const ReleaseKeys: set<string> := {"artist", "date", "label", "link", "cover_link", "title"}

  /** The mapping of lines 34-41, fields read in the source's order. Every field
      is the attribute's string value, or null when that value is missing or
      empty; the cover link is read from `cover_link`. */
  function DecodeRelease(item: Item): (r: Result<Release, Thrown>)
    ensures r.Ok? <==> ReleaseKeys <= item.Keys
    ensures r.Err? ==> r.error.key in ReleaseKeys && r.error.key !in item
    ensures r.Ok? ==>
      && r.value.artist == OrNull(SValue(item["artist"]))
      && r.value.date == OrNull(SValue(item["date"]))
      && r.value.labelName == OrNull(SValue(item["label"]))
      && r.value.link == OrNull(SValue(item["link"]))
      && r.value.coverLink == OrNull(SValue(item["cover_link"]))
      && r.value.title == OrNull(SValue(item["title"]))
  {
    var artist :- Field(item, "artist");
    var date :- Field(item, "date");
    var labelName :- Field(item, "label");
    var link :- Field(item, "link");
    var coverLink :- Field(item, "cover_link");
    var title :- Field(item, "title");
    Ok(Release(artist, date, labelName, link, coverLink, title))
  }

  /** `items.map(...)`: either every item decodes, giving one release per item
      in the same order, or the first item that does not decode throws. */
  function DecodeAll(items: seq<Item>): (r: Result<seq<Release>, Thrown>)
    ensures r.Ok? <==> forall i :: 0 <= i < |items| ==> DecodeRelease(items[i]).Ok?
    ensures r.Ok? ==> |r.value| == |items|
    ensures r.Ok? ==> forall i :: 0 <= i < |items| ==> DecodeRelease(items[i]) == Ok(r.value[i])
    ensures r.Err? ==> exists i :: 0 <= i < |items| && DecodeRelease(items[i]) == Err(r.error)
  {
    if |items| == 0 then Ok([])
    else
      var first :- DecodeRelease(items[0]);
      var rest :- DecodeAll(items[1..]);
      Ok([first] + rest)
  }

  /** Most recent date first: no release is followed by one with a later date. */
  predicate SortedByDate(rs: seq<Release>, stamp: Option<string> -> int)
  {
    forall i, j :: 0 <= i < j < |rs| ==> stamp(rs[i].date) >= stamp(rs[j].date)
  }

  /** A release whose date is not earlier than any date of a sorted list can go in front of it. */
  lemma SortedCons(x: Release, rs: seq<Release>, stamp: Option<string> -> int)
    requires SortedByDate(rs, stamp)
    requires forall y :: y in rs ==> stamp(y.date) <= stamp(x.date)
    ensures SortedByDate([x] + rs, stamp)
  {
    var out := [x] + rs;
    forall i, j | 0 <= i < j < |out| ensures stamp(out[i].date) >= stamp(out[j].date) {
      assert out[j] == rs[j - 1];
      if i > 0 {
        assert out[i] == rs[i - 1];
      }
    }
  }

  lemma SortedTail(rs: seq<Release>, stamp: Option<string> -> int)
    requires |rs| > 0 && SortedByDate(rs, stamp)
    ensures SortedByDate(rs[1..], stamp)
  {
    forall i, j | 0 <= i < j < |rs| - 1 ensures stamp(rs[1..][i].date) >= stamp(rs[1..][j].date) {
      assert rs[1..][i] == rs[i + 1] && rs[1..][j] == rs[j + 1];
    }
  }

  /** Places `r` in front of the first release whose date is not later than its own. */
  function Insert(r: Release, rs: seq<Release>, stamp: Option<string> -> int): (out: seq<Release>)
    ensures multiset(out) == multiset(rs) + multiset{r}
  {
    if |rs| == 0 || stamp(r.date) >= stamp(rs[0].date) then [r] + rs
    else
      assert rs == [rs[0]] + rs[1..];
      [rs[0]] + Insert(r, rs[1..], stamp)
  }

  /** Inserting into a latest-first list keeps it latest first. */
  lemma {:induction false} InsertSorted(r: Release, rs: seq<Release>, stamp: Option<string> -> int)
    requires SortedByDate(rs, stamp)
    ensures SortedByDate(Insert(r, rs, stamp), stamp)
  {
    if |rs| == 0 || stamp(r.date) >= stamp(rs[0].date) {
      SortedCons(r, rs, stamp);
    } else {
      SortedTail(rs, stamp);
      var tail := Insert(r, rs[1..], stamp);
      InsertSorted(r, rs[1..], stamp);
      assert forall y :: y in rs[1..] ==> stamp(y.date) <= stamp(rs[0].date) by {
        forall y | y in rs[1..] ensures stamp(y.date) <= stamp(rs[0].date) {
          var k :| 0 <= k < |rs[1..]| && rs[1..][k] == y;
          assert rs[k + 1] == y;
        }
      }
      assert forall y :: y in tail ==> y == r || y in rs[1..] by {
        forall y | y in tail ensures y == r || y in rs[1..] {
          assert y in multiset(tail);
        }
      }
      SortedCons(rs[0], tail, stamp);
    }
  }

  /** The sort of line 42: its comparator subtracts the first date from the
      second, so the array's stable sort puts the latest date first. */
  function SortByDate(rs: seq<Release>, stamp: Option<string> -> int): (out: seq<Release>)
    ensures SortedByDate(out, stamp)
    ensures multiset(out) == multiset(rs)
    ensures |out| == |rs|
  {
    if |rs| == 0 then []
    else
      assert rs == [rs[0]] + rs[1..];
      InsertSorted(rs[0], SortByDate(rs[1..], stamp), stamp);
      var out := Insert(rs[0], SortByDate(rs[1..], stamp), stamp);
      assert |out| == |multiset(out)|;
      out
  }

  /** The releases whose date has key `t`, in their order. */
  function WithStamp(rs: seq<Release>, stamp: Option<string> -> int, t: int): seq<Release>
  {
    if |rs| == 0 then []
    else (if stamp(rs[0].date) == t then [rs[0]] else []) + WithStamp(rs[1..], stamp, t)
  }

  lemma WithStampCons(x: Release, rs: seq<Release>, stamp: Option<string> -> int, t: int)
    ensures WithStamp([x] + rs, stamp, t) == (if stamp(x.date) == t then [x] else []) + WithStamp(rs, stamp, t)
  {
    assert ([x] + rs)[1..] == rs;
  }

  /** Insertion puts `r` ahead of every release with its own date. */
  lemma {:induction false} InsertWithStamp(r: Release, rs: seq<Release>, stamp: Option<string> -> int, t: int)
    ensures WithStamp(Insert(r, rs, stamp), stamp, t)
         == (if stamp(r.date) == t then [r] else []) + WithStamp(rs, stamp, t)
  {
    if |rs| == 0 || stamp(r.date) >= stamp(rs[0].date) {
      WithStampCons(r, rs, stamp, t);
    } else {
      var tail := Insert(r, rs[1..], stamp);
      InsertWithStamp(r, rs[1..], stamp, t);
      WithStampCons(rs[0], tail, stamp, t);
    }
  }

  /** The sort is stable: releases with equal dates keep their input order. */
  lemma {:induction false} SortByDateStable(rs: seq<Release>, stamp: Option<string> -> int, t: int)
    ensures WithStamp(SortByDate(rs, stamp), stamp, t) == WithStamp(rs, stamp, t)
  {
    if |rs| > 0 {
      SortByDateStable(rs[1..], stamp, t);
      InsertWithStamp(rs[0], SortByDate(rs[1..], stamp), stamp, t);
    }
  }

  /** The handler's outcome: a 200 response with the releases, or a TypeError
      thrown out of the handler. */
  datatype ListReply = Listed(releases: seq<Release>) | Crashed(error: Thrown)

  /** `handler` of list.ts. */
  function ListHandler(query: string -> Option<seq<Item>>, stamp: Option<string> -> int): (r: ListReply)
    ensures query(OwnerAddress).None? ==> r == Listed([])
    ensures r.Crashed? <==>
      query(OwnerAddress).Some? && exists i :: 0 <= i < |query(OwnerAddress).value| && DecodeRelease(query(OwnerAddress).value[i]).Err?
    ensures r.Listed? && query(OwnerAddress).Some? ==>
      && DecodeAll(query(OwnerAddress).value).Ok?
      && |r.releases| == |query(OwnerAddress).value|
      && multiset(r.releases) == multiset(DecodeAll(query(OwnerAddress).value).value)
      && SortedByDate(r.releases, stamp)
  {
    match query(OwnerAddress)
    case None => Listed([])
    case Some(items) =>
      match DecodeAll(items)
      case Err(e) => Crashed(e)
      case Ok(releases) => Listed(SortByDate(releases, stamp))
  }
}
