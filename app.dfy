/**
 * The desktop application's state (`struct RbrSync`) and the logic behind
 * its widgets: the tag filter and its sort, the sorted list of distinct
 * tags, the three-state tag toggle, and the fetch/receive transitions.
 */
module App {
  import opened Wrappers
  import opened Http
  import opened Sync
  import opened Text

  // ---------------------------------------------------------------------
  // `filtered_stages`
  // ---------------------------------------------------------------------

  /** A stage passes the filter: one of its tags is included and none is excluded. */
  predicate Keeps(stage: Stage, includeTags: set<string>, excludeTags: set<string>) {
    && (exists t :: t in includeTags && t in stage.tags)
    && (forall t :: t in excludeTags ==> t !in stage.tags)
  }

  /** The two `filter` steps: the stages that pass, each as often as it occurs. */
  function Kept(stages: seq<Stage>, includeTags: set<string>, excludeTags: set<string>): (r: seq<Stage>)
    ensures forall x :: multiset(r)[x] == if Keeps(x, includeTags, excludeTags) then multiset(stages)[x] else 0
  {
    if stages == [] then []
    else
      assert stages == [stages[0]] + stages[1..];
      var rest := Kept(stages[1..], includeTags, excludeTags);
      if Keeps(stages[0], includeTags, excludeTags) then [stages[0]] + rest else rest
  }

  /** Non-decreasing by title, in `str` order. */
  predicate SortedByTitle(s: seq<Stage>) {
    forall i, j :: 0 <= i < j < |s| ==> StrLe(s[i].title, s[j].title)
  }

  /** Insert `x` before the first stage whose title is not below it. */
  function InsertByTitle(x: Stage, s: seq<Stage>): (r: seq<Stage>)
    ensures multiset(r) == multiset(s) + multiset{x}
    ensures forall y :: y in r <==> y == x || y in s
  {
    if s == [] then [x]
    else if StrLe(x.title, s[0].title) then [x] + s
    else
      assert s == [s[0]] + s[1..];
      [s[0]] + InsertByTitle(x, s[1..])
  }

  /** Every stage of `s` has a title at least `t`. */
  predicate TitlesAtLeast(t: string, s: seq<Stage>) {
    forall y :: y in s ==> StrLe(t, y.title)
  }

  lemma {:induction false} InsertByTitleSorted(x: Stage, s: seq<Stage>)
    requires SortedByTitle(s)
    ensures SortedByTitle(InsertByTitle(x, s))
  {
    if s == [] {
    } else if StrLe(x.title, s[0].title) {
      forall y | y in s ensures StrLe(x.title, y.title) {
        var k :| 0 <= k < |s| && s[k] == y;
        if k > 0 {
          StrLeTransitive(x.title, s[0].title, y.title);
        }
      }
      HeadBelowSorted(x, s);
    } else {
      StrLeTotal(x.title, s[0].title);
      var rest := InsertByTitle(x, s[1..]);
      InsertByTitleSorted(x, s[1..]);
      forall y | y in s[1..] ensures StrLe(s[0].title, y.title) {
        var k :| 0 <= k < |s[1..]| && s[1..][k] == y;
        assert s[k + 1] == y;
      }
      assert TitlesAtLeast(s[0].title, rest);
      HeadBelowSorted(s[0], rest);
    }
  }

  /** A stage whose title is below every title of a sorted list can go in front of it. */
  lemma HeadBelowSorted(x: Stage, s: seq<Stage>)
    requires SortedByTitle(s) && TitlesAtLeast(x.title, s)
    ensures SortedByTitle([x] + s)
  {
  }


  /** `sort_by` on the titles, as an insertion sort. */
  function SortByTitle(s: seq<Stage>): (r: seq<Stage>)
    ensures multiset(r) == multiset(s)
    ensures SortedByTitle(r)
  {
    if s == [] then []
    else
      assert s == [s[0]] + s[1..];
      var rest := SortByTitle(s[1..]);
      InsertByTitleSorted(s[0], rest);
      InsertByTitle(s[0], rest)
  }

  // ---------------------------------------------------------------------
  // `unique_tags`: the tags of all stages, without duplicates, sorted.
  // ---------------------------------------------------------------------

  /** Strictly increasing in `str` order, so without duplicates. */
  predicate StrictlyAscending(s: seq<string>) {
    forall i, j :: 0 <= i < j < |s| ==> StrLt(s[i], s[j])
  }

  /** Add `x` to a strictly ascending list, unless it is already there. */
  function InsertUnique(x: string, s: seq<string>): (r: seq<string>)
    requires StrictlyAscending(s)
    ensures StrictlyAscending(r)
    ensures forall t :: t in r <==> t == x || t in s
  {
    if s == [] then [x]
    else if x == s[0] then s
    else if StrLe(x, s[0]) then
      assert forall j :: 0 < j < |s| ==> StrLt(x, s[j]) by {
        forall j | 0 < j < |s| ensures StrLt(x, s[j]) {
          StrLeTransitive(x, s[0], s[j]);
          if x == s[j] {
            StrLeAntisymmetric(x, s[0]);
          }
        }
      }
      [x] + s
    else
      StrLeTotal(x, s[0]);
      var rest := InsertUnique(x, s[1..]);
      assert forall t :: t in rest ==> StrLt(s[0], t) by {
        forall t | t in rest ensures StrLt(s[0], t) {
          if t != x {
            var k :| 0 <= k < |s[1..]| && s[1..][k] == t;
            assert s[k + 1] == t;
          }
        }
      }
      [s[0]] + rest
  }

  /** The distinct elements of `xs`, sorted. */
  function SortDistinct(xs: seq<string>): (r: seq<string>)
    ensures StrictlyAscending(r)
    ensures forall t :: t in r <==> t in xs
  {
    if xs == [] then [] else InsertUnique(xs[0], SortDistinct(xs[1..]))
  }

  /** The `flat_map` of every stage's tags. */
  function AllTags(stages: seq<Stage>): (tags: seq<string>)
    ensures forall t :: t in tags <==> exists i :: 0 <= i < |stages| && t in stages[i].tags
  {
    if stages == [] then []
    else
      var rest := AllTags(stages[1..]);
      assert forall t :: t in rest <==> exists i :: 1 <= i < |stages| && t in stages[i].tags by {
        forall t ensures t in rest <==> exists i :: 1 <= i < |stages| && t in stages[i].tags {
          if t in rest {
            var i :| 0 <= i < |stages[1..]| && t in stages[1..][i].tags;
            assert t in stages[i + 1].tags;
          }
        }
      }
      stages[0].tags + rest
  }

  // ---------------------------------------------------------------------
  // The tag toggle.
  // ---------------------------------------------------------------------

  /** How a tag is shown: `includeTags` is looked at first, as in the toggle. */
  datatype TagState = Neutral | Included | Excluded

  function StateOf(includeTags: set<string>, excludeTags: set<string>, tag: string): TagState {
    if tag in includeTags then Included else if tag in excludeTags then Excluded else Neutral
  }

  /** The cycle a click moves along. */
  function NextState(state: TagState): TagState {
    match state
    case Neutral => Included
    case Included => Excluded
    case Excluded => Neutral
  }

  /**
   * One click on `tag`: included becomes excluded, excluded becomes
   * neutral, neutral becomes included; no other tag moves.
   */
  function Toggle(includeTags: set<string>, excludeTags: set<string>, tag: string): (r: (set<string>, set<string>))
    ensures StateOf(r.0, r.1, tag) == NextState(StateOf(includeTags, excludeTags, tag))
    ensures forall t :: t != tag ==> (t in r.0 <==> t in includeTags) && (t in r.1 <==> t in excludeTags)
    ensures includeTags !! excludeTags ==> r.0 !! r.1
  {
    if tag in includeTags then (includeTags - {tag}, excludeTags + {tag})
    else if tag in excludeTags then (includeTags, excludeTags - {tag})
    else (includeTags + {tag}, excludeTags)
  }

  /** Three clicks give back both sets, unless the tag was in both. */
  lemma ThreeClicksRestore(includeTags: set<string>, excludeTags: set<string>, tag: string)
    requires !(tag in includeTags && tag in excludeTags)
    ensures var (i1, e1) := Toggle(includeTags, excludeTags, tag);
            var (i2, e2) := Toggle(i1, e1, tag);
            Toggle(i2, e2, tag) == (includeTags, excludeTags)
  {
    var (i1, e1) := Toggle(includeTags, excludeTags, tag);
    var (i2, e2) := Toggle(i1, e1, tag);
    var (i3, e3) := Toggle(i2, e2, tag);
    assert i3 == includeTags;
    assert e3 == excludeTags;
  }

  // ---------------------------------------------------------------------
  // The application state.
  // ---------------------------------------------------------------------

  class RbrSync {
    var token: string
    var dbId: string
    var fetching: bool
    var stages: seq<Stage>
    var includeTags: set<string>
    var excludeTags: set<string>
    var favoritesFile: string

    /** `Default::default()`, given the favourites path it computes. */
    constructor (favoritesFile: string)
      ensures token == "" && dbId == "" && !fetching && stages == []
      ensures includeTags == {} && excludeTags == {}
      ensures this.favoritesFile == favoritesFile
    {
      token := "";
      dbId := "";
      fetching := false;
      stages := [];
      includeTags := {};
      excludeTags := {};
      this.favoritesFile := favoritesFile;
    }

    /**
     * `filtered_stages`: the stages with an included tag and no excluded
     * one, sorted by title.
     */
    function FilteredStages(): (r: seq<Stage>)
      reads this
      ensures SortedByTitle(r)
      ensures multiset(r) == multiset(Kept(stages, includeTags, excludeTags))
      ensures forall x :: x in r <==> x in stages && Keeps(x, includeTags, excludeTags)
      ensures includeTags == {} ==> r == []
    {
      var kept := Kept(stages, includeTags, excludeTags);
      assert forall x :: x in kept <==> x in stages && Keeps(x, includeTags, excludeTags) by {
        forall x ensures x in kept <==> x in stages && Keeps(x, includeTags, excludeTags) {
          assert x in kept <==> multiset(kept)[x] > 0;
          assert x in stages <==> multiset(stages)[x] > 0;
        }
      }
      var r := SortByTitle(kept);
      assert forall x :: x in r <==> x in kept by {
        forall x ensures x in r <==> x in kept {
          assert x in r <==> multiset(r)[x] > 0;
          assert x in kept <==> multiset(kept)[x] > 0;
        }
      }
      r
    }

    /** `unique_tags` in `tags`: every tag of some stage, once, in ascending order. */
    function UniqueTags(): (r: seq<string>)
      reads this
      ensures StrictlyAscending(r)
      ensures forall t :: t in r <==> exists i :: 0 <= i < |stages| && t in stages[i].tags
    {
      SortDistinct(AllTags(stages))
    }

    /** A click on a tag's label. */
    method ClickTag(tag: string)
      modifies this`includeTags, this`excludeTags
      ensures (includeTags, excludeTags) == Toggle(old(includeTags), old(excludeTags), tag)
    {
      if tag in includeTags {
        includeTags := includeTags - {tag};
        excludeTags := excludeTags + {tag};
      } else if tag in excludeTags {
        excludeTags := excludeTags - {tag};
      } else {
        includeTags := includeTags + {tag};
      }
    }

    /**
     * A click on "Fetch tags": the spinner starts and the list empties. The
     * fetch it spawns runs `stages` on the token and collection id.
     */
    method ClickFetch()
      modifies this`fetching, this`stages
      ensures fetching && stages == []
    {
      fetching := true;
      stages := [];
    }

    /** The start of `update`: a list waiting on the channel replaces the stages and stops the spinner. */
    method Receive(received: Option<seq<Stage>>)
      modifies this`fetching, this`stages
      ensures received.Some? ==> !fetching && stages == received.value
      ensures received.None? ==> fetching == old(fetching) && stages == old(stages)
    {
      if received.Some? {
        fetching := false;
        stages := received.value;
      }
    }
  }

  /**
   * What the spawned fetch puts on the channel: the list when `stages`
   * succeeded; on an error its `expect` panics and nothing is sent.
   */
  function Delivered(outcome: Result<seq<Stage>, AppError>): (received: Option<seq<Stage>>)
    ensures received.Some? <==> outcome.Success?
    ensures received.Some? ==> received.value == outcome.value
  {
    match outcome
    case Success(list) => Some(list)
    case Failure(_) => None
  }

  /**
   * "Fetch tags" and the fetch it spawns, `stages` on the app's token and
   * collection id, followed by the delivery of its result: a success shows
   * the new list, a failure leaves the spinner on and the list empty.
   */
  method FetchAndReceive(app: RbrSync, remote: Remote, parsers: Parsers, validHeaderValue: string -> bool)
    requires validHeaderValue("Bearer " + app.token) && remote.clientBuilds ==> WellBehaved(remote, parsers, app.dbId)
    modifies app`fetching, app`stages
    ensures var outcome := Synchronize(app.token, app.dbId, remote, parsers, validHeaderValue);
            && (outcome.Success? ==> !app.fetching && app.stages == outcome.value)
            && (outcome.Failure? ==> app.fetching && app.stages == [])
  {
    app.ClickFetch();
    var outcome, _ := Stages(app.token, app.dbId, remote, parsers, validHeaderValue);
    app.Receive(Delivered(outcome));
  }
}
