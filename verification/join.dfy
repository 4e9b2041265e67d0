/**
 The left join of script.js: each GDP row, in order, paired with the first
 life-expectancy row that has the same key, or with nothing.
 */
module Join {
  import opened Options
  import opened Rows

  /** One joined record: the key, the GDP row itself, and the matched life-expectancy row if any. */
  datatype Merged = Merged(country: Option<string>, gdp: Row, lifeExpectancy: Option<Row>)

  /**
   Keys are compared with JavaScript's `===` on a text or `undefined`: equal
   texts match, and `undefined` matches `undefined`.
   */
  predicate SameKey(a: Option<string>, b: Option<string>) {
    a == b
  }

  /** Some row of `t` has key `key`. */
  ghost predicate HasMatch(t: seq<Row>, key: Option<string>) {
    exists i :: 0 <= i < |t| && SameKey(t[i].country, key)
  }

  /** `t[i]` has key `key` and no earlier row of `t` has. */
  ghost predicate IsFirstMatch(t: seq<Row>, key: Option<string>, i: int) {
    && 0 <= i < |t|
    && SameKey(t[i].country, key)
    && forall j :: 0 <= j < i ==> !SameKey(t[j].country, key)
  }

  /** `Array.prototype.find` with the key test: the first row with key `key`, or nothing. */
  function Find(t: seq<Row>, key: Option<string>): (r: Option<Row>)
    ensures r.None? <==> !HasMatch(t, key)
    ensures r.Some? ==> exists i :: IsFirstMatch(t, key, i) && r.value == t[i]
  {
    if |t| == 0 then None
    else if SameKey(t[0].country, key) then
      assert IsFirstMatch(t, key, 0);
      Some(t[0])
    else
      var r := Find(t[1..], key);
      assert HasMatch(t[1..], key) ==> HasMatch(t, key);
      assert HasMatch(t, key) ==> HasMatch(t[1..], key) by {
        if HasMatch(t, key) {
          var i :| 0 <= i < |t| && SameKey(t[i].country, key);
          assert i != 0;
          assert t[1..][i - 1] == t[i];
        }
      }
      assert r.Some? ==> exists i :: IsFirstMatch(t, key, i) && r.value == t[i] by {
        if r.Some? {
          var i :| IsFirstMatch(t[1..], key, i) && r.value == t[1..][i];
          assert IsFirstMatch(t, key, i + 1);
        }
      }
      r
  }

  /** Whenever `t[i]` is the first match, the lookup returns exactly that row. */
  lemma FindReturnsFirstMatch(t: seq<Row>, key: Option<string>, i: int)
    requires IsFirstMatch(t, key, i)
    ensures Find(t, key) == Some(t[i])
  {
  }

  /** The lookup as the browser runs it: a front-to-back scan that stops at the first match. */
  method FindScan(t: seq<Row>, key: Option<string>) returns (r: Option<Row>, ghost at: int)
    ensures r.None? <==> !HasMatch(t, key)
    ensures r.Some? ==> IsFirstMatch(t, key, at) && r.value == t[at]
    ensures r == Find(t, key)
  {
    var i := 0;
    while i < |t|
      invariant 0 <= i <= |t|
      invariant forall j :: 0 <= j < i ==> !SameKey(t[j].country, key)
    {
      if SameKey(t[i].country, key) {
        FindReturnsFirstMatch(t, key, i);
        return Some(t[i]), i;
      }
      i := i + 1;
    }
    return None, -1;
  }

  /** The joined record of one GDP row. */
  function JoinRow(pop: Row, life: seq<Row>): Merged {
    Merged(pop.country, pop, Find(life, pop.country))
  }

  /**
   `gdpData.map(...)`: one record per GDP row, in order, holding that row and
   the first life-expectancy row with its key, or nothing when there is none.
   */
  function LeftJoin(gdp: seq<Row>, life: seq<Row>): (m: seq<Merged>)
    ensures |m| == |gdp|
    ensures forall i :: 0 <= i < |gdp| ==> m[i].country == gdp[i].country && m[i].gdp == gdp[i]
    ensures forall i, k :: 0 <= i < |gdp| && IsFirstMatch(life, gdp[i].country, k) ==>
              m[i].lifeExpectancy == Some(life[k])
    ensures forall i :: 0 <= i < |gdp| ==> (m[i].lifeExpectancy.None? <==> !HasMatch(life, gdp[i].country))
    ensures forall i :: 0 <= i < |gdp| && m[i].lifeExpectancy.Some? ==>
              m[i].lifeExpectancy.value in life && SameKey(m[i].lifeExpectancy.value.country, gdp[i].country)
  {
    if |gdp| == 0 then []
    else
      var rest := LeftJoin(gdp[1..], life);
      var m := [JoinRow(gdp[0], life)] + rest;
      forall i, k | 0 <= i < |gdp| && IsFirstMatch(life, gdp[i].country, k)
        ensures m[i].lifeExpectancy == Some(life[k])
      {
        if i == 0 {
          FindReturnsFirstMatch(life, gdp[0].country, k);
        } else {
          assert gdp[1..][i - 1] == gdp[i];
        }
      }
      m
  }

  /** A life-expectancy row whose key is the key of no GDP row appears in no joined record. */
  lemma RightOnlyRowsDropped(gdp: seq<Row>, life: seq<Row>, x: Row)
    requires forall g :: g in gdp ==> !SameKey(x.country, g.country)
    ensures forall i :: 0 <= i < |gdp| ==> LeftJoin(gdp, life)[i].lifeExpectancy != Some(x)
  {
  }

  /** The join works row by row: joining a concatenation joins each part. */
  lemma {:induction false} LeftJoinAppend(a: seq<Row>, b: seq<Row>, life: seq<Row>)
    ensures LeftJoin(a + b, life) == LeftJoin(a, life) + LeftJoin(b, life)
  {
    if |a| == 0 {
      assert a + b == b;
    } else {
      assert (a + b)[1..] == a[1..] + b;
      LeftJoinAppend(a[1..], b, life);
    }
  }

  /** The first life-expectancy row per key: the hash map that can replace the linear scan. */
  function IndexByCountry(t: seq<Row>): (idx: map<Option<string>, Row>)
    ensures forall key :: key in idx <==> HasMatch(t, key)
  {
    if |t| == 0 then map[]
    else
      var idx := IndexByCountry(t[1..])[t[0].country := t[0]];
      assert forall key :: HasMatch(t, key) <==> SameKey(t[0].country, key) || HasMatch(t[1..], key) by {
        forall key | HasMatch(t, key)
          ensures SameKey(t[0].country, key) || HasMatch(t[1..], key)
        {
          var i :| 0 <= i < |t| && SameKey(t[i].country, key);
          if i > 0 {
            assert t[1..][i - 1] == t[i];
          }
        }
        forall key | HasMatch(t[1..], key)
          ensures HasMatch(t, key)
        {
          var i :| 0 <= i < |t[1..]| && SameKey(t[1..][i].country, key);
          assert t[i + 1] == t[1..][i];
        }
      }
      idx
  }

  /** Looking a key up in the index. */
  function Lookup(idx: map<Option<string>, Row>, key: Option<string>): Option<Row> {
    if key in idx then Some(idx[key]) else None
  }

  /** The index answers every key exactly as the scan does. */
  lemma {:induction false} IndexAgreesWithFind(t: seq<Row>, key: Option<string>)
    ensures Lookup(IndexByCountry(t), key) == Find(t, key)
  {
    if |t| > 0 && !SameKey(t[0].country, key) {
      IndexAgreesWithFind(t[1..], key);
    }
  }

  /** The join with the scan replaced by an index lookup. */
  function IndexedJoin(gdp: seq<Row>, idx: map<Option<string>, Row>): (m: seq<Merged>)
    ensures |m| == |gdp|
  {
    seq(|gdp|, i requires 0 <= i < |gdp| => Merged(gdp[i].country, gdp[i], Lookup(idx, gdp[i].country)))
  }

  /** Replacing the scan by the index changes no joined record. */
  lemma IndexedJoinIsLeftJoin(gdp: seq<Row>, life: seq<Row>)
    ensures IndexedJoin(gdp, IndexByCountry(life)) == LeftJoin(gdp, life)
  {
    var m := LeftJoin(gdp, life);
    forall i | 0 <= i < |gdp|
      ensures IndexedJoin(gdp, IndexByCountry(life))[i] == m[i]
    {
      IndexAgreesWithFind(life, gdp[i].country);
      if m[i].lifeExpectancy.Some? {
        var k :| IsFirstMatch(life, gdp[i].country, k) && Find(life, gdp[i].country).value == life[k];
      }
    }
  }
}
