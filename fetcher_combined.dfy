/**
 * The cross-source reconciler of `fetchAllObservations`: the METAR
 * observations are tagged and put first, then every Environment Canada
 * observation whose station id, upper-cased, is not among the upper-cased
 * METAR ids. Either fetch may fail; its list is then simply absent
 * (`None`), which is how the `try`/`catch` blocks leave the result.
 */
module FetcherCombined {
  import opened Wrappers
  import opened Text
  import opened Types

  /** The METAR block: every METAR record, in order, tagged with source METAR
      (`[]` when the METAR fetch failed). */
  function MetarBlock(metar: Option<seq<Observation>>): (block: seq<Observation>)
    ensures metar.None? ==> block == []
    ensures metar.Some? ==> |block| == |metar.value|
    ensures metar.Some? ==> forall i :: 0 <= i < |block| ==> block[i] == metar.value[i].(source := METAR)
  {
    match metar
    case None => []
    case Some(obs) => seq(|obs|, i requires 0 <= i < |obs| => obs[i].(source := METAR))
  }

  /** The set of upper-cased station ids of `obs`. */
  function UpperIds(obs: seq<Observation>): set<string> {
    set i | 0 <= i < |obs| :: ToUpper(obs[i].stationId)
  }

  /** The records of `ec` whose upper-cased id is not in `ids`, in order. */
  function Unique(ec: seq<Observation>, ids: set<string>): (kept: seq<Observation>)
    ensures |kept| <= |ec|
  {
    if ec == [] then []
    else
      var last := ec[|ec| - 1];
      Unique(ec[..|ec| - 1], ids) + (if ToUpper(last.stationId) in ids then [] else [last])
  }

  /** The combined list `fetchAllObservations` returns. */
  function Merged(metar: Option<seq<Observation>>, ec: Option<seq<Observation>>): seq<Observation> {
    var block := MetarBlock(metar);
    match ec
    case None => block
    case Some(obs) => block + Unique(obs, UpperIds(block))
  }

  /** The number of EC records reported as duplicates (0 when the EC fetch failed). */
  function Removed(metar: Option<seq<Observation>>, ec: Option<seq<Observation>>): nat {
    match ec
    case None => 0
    case Some(obs) => |obs| - |Unique(obs, UpperIds(MetarBlock(metar)))|
  }

  /** The merge as the source performs it: push the tagged METAR records, collect
      their upper-cased ids into a set, then push the EC records outside it. */
  method FetchAllObservations(metar: Option<seq<Observation>>, ec: Option<seq<Observation>>)
    returns (all: seq<Observation>, removed: nat)
    ensures all == Merged(metar, ec)
    ensures removed == Removed(metar, ec)
  {
    all := [];
    if metar.Some? {
      var metarObs := metar.value;
      var i := 0;
      while i < |metarObs|
        invariant 0 <= i <= |metarObs|
        invariant all == MetarBlock(metar)[..i]
      {
        all := all + [metarObs[i].(source := METAR)];
        i := i + 1;
      }
    }
    assert all == MetarBlock(metar);
    removed := 0;
    if ec.Some? {
      var ecObs := ec.value;
      var metarIds: set<string> := {};
      var k := 0;
      while k < |all|
        invariant 0 <= k <= |all|
        invariant metarIds == UpperIds(all[..k])
      {
        assert all[..k + 1] == all[..k] + [all[k]];
        metarIds := metarIds + {ToUpper(all[k].stationId)};
        k := k + 1;
      }
      assert all[..|all|] == all;
      var unique := [];
      var j := 0;
      while j < |ecObs|
        invariant 0 <= j <= |ecObs|
        invariant unique == Unique(ecObs[..j], metarIds)
      {
        assert ecObs[..j + 1][..j] == ecObs[..j];
        if ToUpper(ecObs[j].stationId) !in metarIds {
          unique := unique + [ecObs[j]];
        }
        j := j + 1;
      }
      assert ecObs[..|ecObs|] == ecObs;
      all := all + unique;
      removed := |ecObs| - |unique|;
    }
  }

  // ---------------------------------------------------------------------
  // Properties of the EC filter
  // ---------------------------------------------------------------------

  /** An EC record is kept iff its upper-cased id is outside `ids`. */
  lemma {:induction false} UniqueMembership(ec: seq<Observation>, ids: set<string>)
    ensures forall o :: o in Unique(ec, ids) <==> o in ec && ToUpper(o.stationId) !in ids
  {
    if ec != [] {
      var init := ec[..|ec| - 1];
      UniqueMembership(init, ids);
      assert ec == init + [ec[|ec| - 1]];
    }
  }

  /** The filter keeps relative order: it distributes over concatenation. */
  lemma {:induction false} UniqueAppend(a: seq<Observation>, b: seq<Observation>, ids: set<string>)
    ensures Unique(a + b, ids) == Unique(a, ids) + Unique(b, ids)
    decreases |b|
  {
    if b == [] {
      assert a + b == a;
    } else {
      var b' := b[..|b| - 1];
      assert (a + b)[..|a + b| - 1] == a + b';
      assert (a + b)[|a + b| - 1] == b[|b| - 1];
      UniqueAppend(a, b', ids);
    }
  }

  /** With no ids to avoid, every EC record is kept. */
  lemma {:induction false} UniqueOfNone(ec: seq<Observation>)
    ensures Unique(ec, {}) == ec
  {
    if ec != [] {
      UniqueOfNone(ec[..|ec| - 1]);
    }
  }

  /** Filtering twice by the same ids changes nothing. */
  lemma {:induction false} UniqueIdempotent(ec: seq<Observation>, ids: set<string>)
    ensures Unique(Unique(ec, ids), ids) == Unique(ec, ids)
  {
    if ec != [] {
      var init := ec[..|ec| - 1];
      var last := ec[|ec| - 1];
      UniqueIdempotent(init, ids);
      if ToUpper(last.stationId) !in ids {
        var u := Unique(init, ids);
        assert Unique(ec, ids) == u + [last];
        UniqueAppend(u, [last], ids);
        assert [last][..0] == [];
        assert Unique([last], ids) == [last];
        assert Unique(u + [last], ids) == u + [last];
      } else {
        assert Unique(ec, ids) == Unique(init, ids);
      }
    }
  }

  // ---------------------------------------------------------------------
  // Properties of the merge
  // ---------------------------------------------------------------------

  /** The METAR ids compared against are those of the METAR input: tagging
      changes only the source. */
  lemma MetarIds(metar: seq<Observation>, id: string)
    ensures id in UpperIds(MetarBlock(Some(metar)))
        <==> exists m :: m in metar && ToUpper(m.stationId) == id
  {
    var block := MetarBlock(Some(metar));
    if exists m :: m in metar && ToUpper(m.stationId) == id {
      var m :| m in metar && ToUpper(m.stationId) == id;
      var i :| 0 <= i < |metar| && metar[i] == m;
      assert ToUpper(block[i].stationId) == id;
    }
  }

  /** All METAR records come first, in input order, tagged METAR; they are
      followed by the kept EC records in their input order. */
  lemma MergedLayout(metar: seq<Observation>, ec: seq<Observation>)
    ensures var all := Merged(Some(metar), Some(ec));
      |all| == |metar| + |Unique(ec, UpperIds(MetarBlock(Some(metar))))|
      && (forall i :: 0 <= i < |metar| ==> all[i] == metar[i].(source := METAR))
      && all[|metar|..] == Unique(ec, UpperIds(MetarBlock(Some(metar))))
  {
  }

  /** METAR has priority: an EC record appears after the METAR block iff no
      METAR record has the same station id up to letter case. */
  lemma MergedPriority(metar: seq<Observation>, ec: seq<Observation>, o: Observation)
    requires o in ec
    ensures o in Merged(Some(metar), Some(ec))[|metar|..]
        <==> !exists m :: m in metar && ToUpper(m.stationId) == ToUpper(o.stationId)
  {
    var ids := UpperIds(MetarBlock(Some(metar)));
    UniqueMembership(ec, ids);
    MetarIds(metar, ToUpper(o.stationId));
    MergedLayout(metar, ec);
  }

  /** The records of `ec` whose upper-cased id is in `ids`, in order: the
      duplicates the merge reports. */
  function Collisions(ec: seq<Observation>, ids: set<string>): seq<Observation> {
    if ec == [] then []
    else
      var last := ec[|ec| - 1];
      Collisions(ec[..|ec| - 1], ids) + (if ToUpper(last.stationId) in ids then [last] else [])
  }

  /** Every EC record is either kept or a collision, never both. */
  lemma {:induction false} UniqueCollisions(ec: seq<Observation>, ids: set<string>)
    ensures |Unique(ec, ids)| + |Collisions(ec, ids)| == |ec|
    ensures forall o :: o in Collisions(ec, ids) <==> o in ec && ToUpper(o.stationId) in ids
  {
    if ec != [] {
      var init := ec[..|ec| - 1];
      UniqueCollisions(init, ids);
      assert ec == init + [ec[|ec| - 1]];
    }
  }

  /** Duplicates inside either list are not removed: the output has every
      METAR record and every EC record except those whose id collides with a
      METAR id, and the removed count is the number of such collisions. */
  lemma MergedLength(metar: Option<seq<Observation>>, ec: Option<seq<Observation>>)
    ensures var ids := UpperIds(MetarBlock(metar));
      Removed(metar, ec) == (if ec.Some? then |Collisions(ec.value, ids)| else 0)
    ensures |Merged(metar, ec)| + Removed(metar, ec)
        == (if metar.Some? then |metar.value| else 0) + (if ec.Some? then |ec.value| else 0)
  {
    if ec.Some? {
      UniqueCollisions(ec.value, UpperIds(MetarBlock(metar)));
    }
  }

  /** A failed METAR fetch leaves every EC record; a failed EC fetch leaves the
      tagged METAR records alone. */
  lemma MergedFailures(metar: Option<seq<Observation>>, ec: Option<seq<Observation>>)
    ensures metar.None? && ec.Some? ==> Merged(metar, ec) == ec.value && Removed(metar, ec) == 0
    ensures ec.None? ==> Merged(metar, ec) == MetarBlock(metar) && Removed(metar, ec) == 0
  {
    if metar.None? && ec.Some? {
      assert UpperIds([]) == {};
      UniqueOfNone(ec.value);
    }
  }

  /** An EC station reported under the same ICAO code in lower case is dropped. */
  lemma CaseInsensitiveExample(m: Observation, e: Observation)
    requires m.stationId == "CYEG" && e.stationId == "cyeg"
    ensures Merged(Some([m]), Some([e])) == [m.(source := METAR)]
    ensures Removed(Some([m]), Some([e])) == 1
  {
    assert ToUpper("cyeg") == "CYEG";
    assert ToUpper("CYEG") == "CYEG";
    var block := MetarBlock(Some([m]));
    assert block[0].stationId == "CYEG";
    assert "CYEG" in UpperIds(block);
    assert [e][..0] == [];
  }
}
