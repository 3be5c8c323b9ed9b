/**
 * The recent-search history: the places the user searched for, most recent
 * first, at most one per name and at most ten of them. The stored list is
 * kept as a value; writing it as JSON is not modelled.
 */
module SearchHistory {
  import opened Wrappers
  import opened Model

  /** How many places the history keeps. */
  const MaxEntries: nat := 10

  /** `removeAll { it.name == name }`: the entries with another name, in their order. */
  function WithoutName(h: seq<RecentPlace>, name: string): (r: seq<RecentPlace>)
    ensures |r| <= |h|
    ensures forall x :: x in r <==> x in h && x.name != name
  {
    if h == [] then []
    else (if h[0].name == name then [] else [h[0]]) + WithoutName(h[1..], name)
  }

  /** `savePlace(p)` on the history `h`: `p` first, its namesakes removed, the oldest dropped past ten. */
  function Saved(h: seq<RecentPlace>, p: RecentPlace): seq<RecentPlace> {
    var l := [p] + WithoutName(h, p.name);
    if |l| > MaxEntries then l[..|l| - 1] else l
  }

  /** `a` is `b` with some entries left out, the others in the same order. */
  predicate IsSubsequence(a: seq<RecentPlace>, b: seq<RecentPlace>)
    decreases |b|
  {
    if a == [] then true
    else if b == [] then false
    else if a[0] == b[0] then IsSubsequence(a[1..], b[1..])
    else IsSubsequence(a, b[1..])
  }

  /** No two entries share a name. */
  predicate DistinctNames(h: seq<RecentPlace>) {
    forall i, j :: 0 <= i < j < |h| ==> h[i].name != h[j].name
  }

  /** What every history built by saves looks like. */
  predicate WellFormed(h: seq<RecentPlace>) {
    |h| <= MaxEntries && DistinctNames(h)
  }

  /** After a save the place comes first. */
  lemma SavedHead(h: seq<RecentPlace>, p: RecentPlace)
    ensures |Saved(h, p)| >= 1 && Saved(h, p)[0] == p
  {
  }

  /** After a save no other entry has the place's name. */
  lemma SavedNoNamesake(h: seq<RecentPlace>, p: RecentPlace)
    ensures forall i :: 1 <= i < |Saved(h, p)| ==> Saved(h, p)[i].name != p.name
  {
    var w := WithoutName(h, p.name);
    var s := Saved(h, p);
    forall i | 1 <= i < |s|
      ensures s[i].name != p.name
    {
      assert s[i] == w[i - 1];
      assert w[i - 1] in w;
    }
  }

  /**
   * After a save the other entries are those of `h` with another name, in
   * their order, with at most the last of them dropped; a history of at most
   * ten stays at most ten.
   */
  lemma SavedRest(h: seq<RecentPlace>, p: RecentPlace)
    ensures var s, w := Saved(h, p), WithoutName(h, p.name);
            |w| <= |s| <= |w| + 1 && s[1..] == w[..|s| - 1]
    ensures |h| <= MaxEntries ==> |Saved(h, p)| <= MaxEntries
  {
    var w := WithoutName(h, p.name);
    var l := [p] + w;
    assert l[1..] == w;
  }

  lemma {:induction false} WithoutNameIsSubsequence(h: seq<RecentPlace>, name: string)
    ensures IsSubsequence(WithoutName(h, name), h)
    decreases |h|
  {
    if h != [] {
      var rest := WithoutName(h[1..], name);
      WithoutNameIsSubsequence(h[1..], name);
      if h[0].name == name {
        assert WithoutName(h, name) == rest;
        SubsequenceOfTail(rest, h);
      } else {
        assert WithoutName(h, name) == [h[0]] + rest;
        assert ([h[0]] + rest)[1..] == rest;
      }
    }
  }

  lemma {:induction false} SubsequenceOfTail(a: seq<RecentPlace>, b: seq<RecentPlace>)
    requires b != [] && IsSubsequence(a, b[1..])
    ensures IsSubsequence(a, b)
    decreases |b|, |a|
  {
    if a != [] && a[0] == b[0] {
      SubsequenceDropHead(a, b[1..]);
    }
  }

  lemma {:induction false} SubsequenceDropHead(a: seq<RecentPlace>, b: seq<RecentPlace>)
    requires a != [] && IsSubsequence(a, b)
    ensures IsSubsequence(a[1..], b)
    decreases |b|, |a|
  {
    assert b != [];
    if a[0] == b[0] {
      if a[1..] != [] {
        SubsequenceOfTail(a[1..], b);
      }
    } else {
      SubsequenceDropHead(a, b[1..]);
      SubsequenceOfTail(a[1..], b);
    }
  }

  lemma {:induction false} SubsequenceOfPrefix(a: seq<RecentPlace>, k: nat, b: seq<RecentPlace>)
    requires k <= |a| && IsSubsequence(a, b)
    ensures IsSubsequence(a[..k], b)
    decreases |b|
  {
    if k > 0 {
      assert b != [];
      if a[0] == b[0] {
        SubsequenceOfPrefix(a[1..], k - 1, b[1..]);
        assert a[..k][1..] == a[1..][..k - 1];
      } else {
        SubsequenceOfPrefix(a, k, b[1..]);
      }
    }
  }

  /** After a save the entries other than the place appear in `h`, in the same order. */
  lemma SavedKeepsOrder(h: seq<RecentPlace>, p: RecentPlace)
    ensures IsSubsequence(Saved(h, p)[1..], h)
  {
    var s, w := Saved(h, p), WithoutName(h, p.name);
    SavedRest(h, p);
    WithoutNameIsSubsequence(h, p.name);
    SubsequenceOfPrefix(w, |s| - 1, h);
  }

  lemma {:induction false} WithoutNameDistinct(h: seq<RecentPlace>, name: string)
    requires DistinctNames(h)
    ensures DistinctNames(WithoutName(h, name))
    decreases |h|
  {
    if h != [] {
      var rest := WithoutName(h[1..], name);
      WithoutNameDistinct(h[1..], name);
      if h[0].name != name {
        var r := [h[0]] + rest;
        assert WithoutName(h, name) == r;
        forall j | 0 < j < |r|
          ensures r[0].name != r[j].name
        {
          assert r[j] in rest;
          assert r[j] in h[1..];
        }
      }
    }
  }

  /** Saving keeps a history well formed. */
  lemma SavedWellFormed(h: seq<RecentPlace>, p: RecentPlace)
    requires WellFormed(h)
    ensures WellFormed(Saved(h, p))
  {
    var w := WithoutName(h, p.name);
    var s := Saved(h, p);
    SavedRest(h, p);
    SavedNoNamesake(h, p);
    WithoutNameDistinct(h, p.name);
    forall i, j | 0 <= i < j < |s|
      ensures s[i].name != s[j].name
    {
      if i > 0 {
        assert s[i] == w[i - 1] && s[j] == w[j - 1];
      }
    }
  }

  lemma {:induction false} WithoutAbsentName(h: seq<RecentPlace>, name: string)
    requires forall x :: x in h ==> x.name != name
    ensures WithoutName(h, name) == h
    decreases |h|
  {
    if h != [] {
      assert h[0] in h;
      WithoutAbsentName(h[1..], name);
      assert [h[0]] + h[1..] == h;
    }
  }

  /** Saving the same place twice in a row gives the history of saving it once. */
  lemma SavedTwice(h: seq<RecentPlace>, p: RecentPlace)
    requires |h| <= MaxEntries
    ensures Saved(Saved(h, p), p) == Saved(h, p)
  {
    var s := Saved(h, p);
    SavedRest(h, p);
    SavedNoNamesake(h, p);
    var rest := s[1..];
    assert s == [p] + rest;
    assert WithoutName(s, p.name) == WithoutName(rest, p.name);
    forall x | x in rest
      ensures x.name != p.name
    {
      var i :| 0 <= i < |rest| && rest[i] == x;
      assert x == s[i + 1];
    }
    WithoutAbsentName(rest, p.name);
  }

  /** The history store (`SearchHistoryManager`); `stored` is the saved list, if any. */
  class SearchHistoryManager {
    var stored: Option<seq<RecentPlace>>

    /** A store with nothing saved. */
    constructor ()
      ensures stored == None
      ensures History() == []
    {
      stored := None;
    }

    /** `getHistory`: the saved list, or the empty list when there is none. */
    function History(): (h: seq<RecentPlace>)
      reads this
      ensures stored.None? ==> h == []
      ensures stored.Some? ==> h == stored.value
    {
      stored.GetOr([])
    }

    /** `savePlace`. */
    method SavePlace(place: RecentPlace)
      modifies this
      ensures stored == Some(Saved(old(History()), place))
      ensures History()[0] == place
    {
      var history := History();
      history := WithoutName(history, place.name);
      history := [place] + history;
      if |history| > MaxEntries {
        history := history[..|history| - 1];
      }
      stored := Some(history);
    }

    /** `clearHistory`: nothing is stored, so the history is empty. */
    method ClearHistory()
      modifies this
      ensures stored == None
      ensures History() == []
    {
      stored := None;
    }
  }
}
