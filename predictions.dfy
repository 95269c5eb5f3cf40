/** `formatPredictions`: the classifier's scores as (index, score) pairs, best first. */
module Predictions {

  datatype Prediction = Prediction(index: nat, score: real)

  /** Each score paired with its class index, in index order. */
  function Enumerate(p: seq<real>): (r: seq<Prediction>)
  {
    seq(|p|, i requires 0 <= i < |p| => Prediction(i, p[i]))
  }

  /** The order a stable descending sort on the score produces from enumerated pairs:
      higher score first, and among equal scores the lower index first. */
  predicate Before(a: Prediction, b: Prediction)
  {
    a.score > b.score || (a.score == b.score && a.index < b.index)
  }

  predicate Ranked(r: seq<Prediction>)
  {
    forall i, j :: 0 <= i < j < |r| ==> Before(r[i], r[j])
  }

  predicate IndexOrdered(s: seq<Prediction>)
  {
    forall i, j :: 0 <= i < j < |s| ==> s[i].index < s[j].index
  }

  /** Places x in front of the first element whose score it reaches. */
  function Insert(x: Prediction, s: seq<Prediction>): (r: seq<Prediction>)
    ensures multiset(r) == multiset(s) + multiset{x}
  {
    if s == [] then [x]
    else if x.score >= s[0].score then [x] + s
    else
      assert s == [s[0]] + s[1..];
      [s[0]] + Insert(x, s[1..])
  }

  /** Insertion sort, descending on the score; stands for Python's stable `list.sort`. */
  function SortByScore(s: seq<Prediction>): (r: seq<Prediction>)
    ensures multiset(r) == multiset(s)
  {
    if s == [] then []
    else
      assert s == [s[0]] + s[1..];
      Insert(s[0], SortByScore(s[1..]))
  }

  lemma {:induction false} InsertRanked(x: Prediction, s: seq<Prediction>)
    requires Ranked(s)
    requires forall e :: e in s ==> x.index < e.index
    ensures Ranked(Insert(x, s))
  {
    if s == [] {
    } else if x.score >= s[0].score {
      var r := Insert(x, s);
      assert r == [x] + s;
      forall i, j | 0 <= i < j < |r| ensures Before(r[i], r[j]) {
        if i == 0 {
          assert r[j] == s[j - 1] && r[j] in s;
          assert j - 1 == 0 || Before(s[0], s[j - 1]);
        } else {
          assert Before(s[i - 1], s[j - 1]);
        }
      }
    } else {
      var t := Insert(x, s[1..]);
      assert Ranked(s[1..]) by {
        forall i, j | 0 <= i < j < |s[1..]| ensures Before(s[1..][i], s[1..][j]) {
          assert Before(s[i + 1], s[j + 1]);
        }
      }
      InsertRanked(x, s[1..]);
      forall k | 0 <= k < |t| ensures Before(s[0], t[k]) {
        assert t[k] in multiset(t);
        if t[k] != x {
          assert t[k] in multiset(s[1..]);
          var m :| 0 <= m < |s[1..]| && s[1..][m] == t[k];
          assert Before(s[0], s[m + 1]);
        }
      }
      var r := Insert(x, s);
      assert r == [s[0]] + t;
      forall i, j | 0 <= i < j < |r| ensures Before(r[i], r[j]) {
        if i == 0 {
          assert r[j] == t[j - 1];
        } else {
          assert Before(t[i - 1], t[j - 1]);
        }
      }
    }
  }

  lemma {:induction false} SortRanked(s: seq<Prediction>)
    requires IndexOrdered(s)
    ensures Ranked(SortByScore(s))
  {
    if s != [] {
      var tail := s[1..];
      assert IndexOrdered(tail) by {
        forall i, j | 0 <= i < j < |tail| ensures tail[i].index < tail[j].index {
          assert s[i + 1].index < s[j + 1].index;
        }
      }
      SortRanked(tail);
      var sorted := SortByScore(tail);
      forall e | e in sorted ensures s[0].index < e.index {
        assert e in multiset(sorted);
        assert e in multiset(tail);
        var m :| 0 <= m < |tail| && tail[m] == e;
        assert s[0].index < s[m + 1].index;
      }
      InsertRanked(s[0], sorted);
    }
  }

  /** `formatPredictions(predictions)` */
  function FormatPredictions(p: seq<real>): (r: seq<Prediction>)
    ensures |r| == |p|
    ensures multiset(r) == multiset(Enumerate(p))
    ensures Ranked(r)
  {
    SortRanked(Enumerate(p));
    SortByScore(Enumerate(p))
  }

  /** The head of `formatPredictions` is the first index holding the highest score. */
  lemma TopPrediction(p: seq<real>)
    requires |p| > 0
    ensures var top := FormatPredictions(p)[0];
      top.index < |p| && top.score == p[top.index] &&
      (forall j :: 0 <= j < |p| ==> p[j] <= top.score) &&
      (forall j :: 0 <= j < top.index ==> p[j] < top.score)
  {
    var r := FormatPredictions(p);
    var e := Enumerate(p);
    assert r[0] in multiset(r);
    assert r[0] in multiset(e);
    var k :| 0 <= k < |e| && e[k] == r[0];
    forall j | 0 <= j < |p| ensures p[j] <= r[0].score && (j < r[0].index ==> p[j] < r[0].score) {
      assert e[j] in multiset(e);
      assert e[j] in multiset(r);
      var i :| 0 <= i < |r| && r[i] == e[j];
      assert i == 0 || Before(r[0], r[i]);
    }
  }
}
