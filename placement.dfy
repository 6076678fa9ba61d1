/**
 * Location selection (AI): the greedy rule that places a building on the
 * best free FIELD tile of the "ai" influence field, among the tiles that a
 * second, named field also covers.
 */
module Placement {
  import opened Grid
  import opened Influence

  /** float.MaxValue, the starting best of the lowest policy. */
  const MaxFloat: real := 340282346638528859811704183484516925440.0

  /** The running best before any tile is seen: -1 under the highest policy, float.MaxValue under the lowest. */
  function InitialBest(highest: bool): real
  {
    if highest then -1.0 else MaxFloat
  }

  /** b is at least as good as v: no smaller under the highest policy, no larger under the lowest. */
  predicate Dominates(highest: bool, b: real, v: real)
  {
    if highest then b >= v else b <= v
  }

  /**
   * k passes the scan's filter: a key of the "ai" field, a FIELD tile, and
   * a tile the named field does not report as -1.
   */
  predicate Qualifies(ai: map<int, real>, named: map<int, real>, tiles: seq<TileType>, k: int)
  {
    k in ai && 0 <= k < |tiles| && tiles[k] == Field && Lookup(named, k) != -1.0
  }

  /**
   * b is the running best after the keys in scanned: it starts at the
   * policy's initial value, only ever moves to the value of a qualifying
   * tile, and dominates every qualifying tile seen.
   */
  predicate IsBestOver(ai: map<int, real>, named: map<int, real>, tiles: seq<TileType>,
                       highest: bool, b: real, scanned: set<int>)
  {
    && Dominates(highest, b, InitialBest(highest))
    && (forall k :: k in scanned && Qualifies(ai, named, tiles, k) ==> Dominates(highest, b, ai[k]))
    && (b == InitialBest(highest) || exists k :: k in scanned && Qualifies(ai, named, tiles, k) && ai[k] == b)
  }

  /** The final best of a scan is determined by the field: two bests over the same keys are equal. */
  lemma BestUnique(ai: map<int, real>, named: map<int, real>, tiles: seq<TileType>,
                   highest: bool, b1: real, b2: real, scanned: set<int>)
    requires IsBestOver(ai, named, tiles, highest, b1, scanned) && IsBestOver(ai, named, tiles, highest, b2, scanned)
    ensures b1 == b2
  {
    if b1 != InitialBest(highest) {
      var k1 :| k1 in scanned && Qualifies(ai, named, tiles, k1) && ai[k1] == b1;
      assert Dominates(highest, b2, b1);
    }
    if b2 != InitialBest(highest) {
      var k2 :| k2 in scanned && Qualifies(ai, named, tiles, k2) && ai[k2] == b2;
      assert Dominates(highest, b1, b2);
    }
  }

  /** v strictly beats b: larger under the highest policy, smaller under the lowest. */
  predicate Improves(highest: bool, v: real, b: real)
  {
    if highest then v > b else v < b
  }

  /**
   * The scan's state after the keys in scanned: b is the running best and
   * candidates lists, once each, exactly the qualifying keys seen whose
   * value equals b.
   */
  ghost predicate IsRunningBest(ai: map<int, real>, named: map<int, real>, tiles: seq<TileType>,
                          highest: bool, b: real, candidates: seq<int>, scanned: set<int>)
  {
    && IsBestOver(ai, named, tiles, highest, b, scanned)
    && (forall c :: c in candidates <==> c in scanned && Qualifies(ai, named, tiles, c) && ai[c] == b)
    && Distinct(candidates)
  }

  /** Before any key: the initial best and no candidates. */
  lemma ScanStart(ai: map<int, real>, named: map<int, real>, tiles: seq<TileType>, highest: bool)
    ensures IsRunningBest(ai, named, tiles, highest, InitialBest(highest), [], {})
  {
  }

  /** A key that does not qualify, or whose value is worse than the best, changes nothing. */
  lemma ScanSkip(ai: map<int, real>, named: map<int, real>, tiles: seq<TileType>,
                 highest: bool, b: real, candidates: seq<int>, scanned: set<int>, key: int)
    requires IsRunningBest(ai, named, tiles, highest, b, candidates, scanned) && key !in scanned && key in ai
    requires !Qualifies(ai, named, tiles, key) || (!Improves(highest, ai[key], b) && ai[key] != b)
    ensures IsRunningBest(ai, named, tiles, highest, b, candidates, scanned + {key})
  {
    if b != InitialBest(highest) {
      var w :| w in scanned && Qualifies(ai, named, tiles, w) && ai[w] == b;
      assert w in scanned + {key};
    }
  }

  /** A qualifying key that beats the best becomes the new best and the only candidate. */
  lemma ScanImprove(ai: map<int, real>, named: map<int, real>, tiles: seq<TileType>,
                    highest: bool, b: real, candidates: seq<int>, scanned: set<int>, key: int)
    requires IsRunningBest(ai, named, tiles, highest, b, candidates, scanned) && key !in scanned && key in ai
    requires Qualifies(ai, named, tiles, key) && Improves(highest, ai[key], b)
    ensures IsRunningBest(ai, named, tiles, highest, ai[key], [key], scanned + {key})
  {
    assert key in scanned + {key};
  }

  /** A qualifying key that ties with the best joins the candidates. */
  lemma ScanTie(ai: map<int, real>, named: map<int, real>, tiles: seq<TileType>,
                highest: bool, b: real, candidates: seq<int>, scanned: set<int>, key: int)
    requires IsRunningBest(ai, named, tiles, highest, b, candidates, scanned) && key !in scanned && key in ai
    requires Qualifies(ai, named, tiles, key) && ai[key] == b
    ensures IsRunningBest(ai, named, tiles, highest, b, candidates + [key], scanned + {key})
  {
    assert key in scanned + {key};
    forall i, j | 0 <= i < j < |candidates + [key]| ensures (candidates + [key])[i] != (candidates + [key])[j] {
      if j == |candidates| {
        assert candidates[i] in candidates;
      }
    }
  }

  /** The test after the scan as AI.cs writes it: only a best of 0 or -1 gives up. */
  predicate RejectedAsWritten(best: real)
  {
    best == 0.0 || best == -1.0
  }

  /**
   * The corrected test: also give up when no tile qualified, which under the
   * lowest policy leaves the best at float.MaxValue and nothing to pick.
   */
  predicate Rejected(best: real, candidates: seq<int>)
  {
    RejectedAsWritten(best) || candidates == []
  }

  /**
   * The guard as written lets an empty tie list through: one "ai" key on a
   * FOREST tile, scanned under the lowest policy, ends every scan with the
   * best at float.MaxValue and no candidates, which the test does not reject.
   */
  lemma {:induction false} LowestScanLeavesNothingToPick()
    ensures forall b, c :: IsRunningBest(map[0 := 1.0], map[], [Forest], false, b, c, {0}) ==>
                             b == MaxFloat && c == [] && !RejectedAsWritten(b)
    ensures forall b, c :: IsRunningBest(map[0 := 1.0], map[], [Forest], false, b, c, {0}) ==> Rejected(b, c)
  {
    var ai: map<int, real>, named: map<int, real>, tiles := map[0 := 1.0], map[], [Forest];
    forall b, c | IsRunningBest(ai, named, tiles, false, b, c, {0})
      ensures b == MaxFloat && c == []
    {
      assert !Qualifies(ai, named, tiles, 0);
      assert IsBestOver(ai, named, tiles, false, MaxFloat, {0});
      BestUnique(ai, named, tiles, false, b, MaxFloat, {0});
      var x := if c == [] then 0 else c[0];
      assert c != [] ==> x in c;
    }
  }

  /** Some tile qualifies with a value the lowest policy's starting best float.MaxValue does not beat. */
  predicate LowestHasCandidate(ai: map<int, real>, named: map<int, real>, tiles: seq<TileType>)
  {
    exists k :: k in ai && Qualifies(ai, named, tiles, k) && ai[k] <= MaxFloat
  }

  /**
   * What the random pick of AI.cs demands of a finished scan the guard lets
   * through: the tie list is non-empty exactly under the highest policy or
   * when some qualifying value is at most float.MaxValue.
   */
  lemma AsWrittenPickDefined(ai: map<int, real>, named: map<int, real>, tiles: seq<TileType>,
                             highest: bool, b: real, c: seq<int>)
    requires IsRunningBest(ai, named, tiles, highest, b, c, ai.Keys) && !RejectedAsWritten(b)
    ensures c != [] <==> highest || LowestHasCandidate(ai, named, tiles)
  {
    var x := if c == [] then 0 else c[0];
    assert c != [] ==> x in c;
    if highest || LowestHasCandidate(ai, named, tiles) {
      if b != InitialBest(highest) {
        var k :| k in ai.Keys && Qualifies(ai, named, tiles, k) && ai[k] == b;
        assert k in c;
      } else {
        var k :| k in ai && Qualifies(ai, named, tiles, k) && ai[k] <= MaxFloat;
        assert k in ai.Keys;
        assert k in c;
      }
    }
  }

  /** The placement component: the influence maps it consults and the buildings it has recorded. */
  class AI {
    var buildingLocations: set<int>
    var initialized: bool
    const influenceMap: InfluenceMap

    ghost predicate Valid()
      reads this
    {
      influenceMap.grid.Valid() && (!initialized ==> buildingLocations == {})
    }

    constructor (influenceMap: InfluenceMap)
      requires influenceMap.grid.Valid()
      ensures Valid() && this.influenceMap == influenceMap && !initialized
    {
      this.influenceMap := influenceMap;
      buildingLocations := {};
      initialized := false;
    }

    /** The "ai" field over the current grid (empty when no definition has that name). */
    ghost function AiField(): map<int, real>
      reads influenceMap.grid.tiles
      requires influenceMap.grid.Valid()
    {
      influenceMap.FieldByName("ai")
    }

    /** k passes the filter of a scan for name over the current grid. */
    ghost predicate QualifiesNow(name: string, k: int)
      reads influenceMap.grid.tiles
      requires influenceMap.grid.Valid()
    {
      Qualifies(AiField(), influenceMap.FieldByName(name), influenceMap.grid.tiles[..], k)
    }

    /** First call only: record every OCCUPIED tile as a building location. */
    method Initialize()
      requires Valid()
      modifies this
      ensures Valid() && initialized
      ensures old(initialized) ==> buildingLocations == old(buildingLocations)
      ensures !old(initialized) ==>
                buildingLocations == set k | 0 <= k < influenceMap.grid.tiles.Length && influenceMap.grid.tiles[k] == Occupied
    {
      if initialized {
        return;
      }
      initialized := true;
      var indices := influenceMap.grid.GetGridIndicesFromType(Occupied);
      for i := 0 to |indices|
        invariant initialized
        invariant buildingLocations == set j | 0 <= j < i :: indices[j]
      {
        buildingLocations := buildingLocations + {indices[i]};
      }
      forall k | k in buildingLocations
        ensures 0 <= k < influenceMap.grid.tiles.Length && influenceMap.grid.tiles[k] == Occupied
      {
        var j :| 0 <= j < |indices| && indices[j] == k;
        assert indices[j] in indices;
      }
      forall k | 0 <= k < influenceMap.grid.tiles.Length && influenceMap.grid.tiles[k] == Occupied
        ensures k in buildingLocations
      {
        var j :| 0 <= j < |indices| && indices[j] == k;
      }
    }

    /**
     * The foreach over the "ai" field: the best qualifying value under the
     * policy and every key that attains it, in visiting order.
     */
    method ScanField(name: string, highest: bool, aiMap: map<int, real>,
                     ghost named: map<int, real>, ghost tiles: seq<TileType>)
      returns (influence: real, candidates: seq<int>)
      requires influenceMap.grid.Valid()
      requires named == influenceMap.FieldByName(name) && tiles == influenceMap.grid.tiles[..]
      requires forall k :: k in aiMap ==> 0 <= k < influenceMap.grid.tiles.Length
      ensures IsRunningBest(aiMap, named, tiles, highest, influence, candidates, aiMap.Keys)
    {
      var grid := influenceMap.grid;
      influence := if highest then -1.0 else MaxFloat;
      candidates := [];
      var remaining := aiMap.Keys;
      ScanStart(aiMap, named, tiles, highest);
      while remaining != {}
        invariant remaining <= aiMap.Keys
        invariant IsRunningBest(aiMap, named, tiles, highest, influence, candidates, aiMap.Keys - remaining)
        decreases |remaining|
      {
        assert exists x :: x in remaining by {
          if forall x :: x !in remaining {
            assert false;
          }
        }
        var key :| key in remaining;
        ghost var scanned := aiMap.Keys - remaining;
        assert aiMap.Keys - (remaining - {key}) == scanned + {key};
        var keep := false;
        if grid.GetTileType(key) == Field {
          var check := influenceMap.CheckIndexOnInfluenceMap(name, key);
          keep := check != -1.0;
        }
        assert keep <==> Qualifies(aiMap, named, tiles, key);
        if keep {
          if highest {
            if aiMap[key] > influence {
              ScanImprove(aiMap, named, tiles, highest, influence, candidates, scanned, key);
              candidates := [key];
              influence := aiMap[key];
            } else if aiMap[key] == influence {
              ScanTie(aiMap, named, tiles, highest, influence, candidates, scanned, key);
              candidates := candidates + [key];
            } else {
              ScanSkip(aiMap, named, tiles, highest, influence, candidates, scanned, key);
            }
          } else {
            if aiMap[key] < influence {
              ScanImprove(aiMap, named, tiles, highest, influence, candidates, scanned, key);
              candidates := [key];
              influence := aiMap[key];
            } else if aiMap[key] == influence {
              ScanTie(aiMap, named, tiles, highest, influence, candidates, scanned, key);
              candidates := candidates + [key];
            } else {
              ScanSkip(aiMap, named, tiles, highest, influence, candidates, scanned, key);
            }
          }
        } else {
          ScanSkip(aiMap, named, tiles, highest, influence, candidates, scanned, key);
        }
        remaining := remaining - {key};
      }
      assert aiMap.Keys - remaining == aiMap.Keys;
    }

    /**
     * Scan the "ai" field for the best qualifying tile under the policy,
     * collecting ties, and pick one tie at random; -1 when the field is
     * empty, the best is 0 or -1, or no tile qualified. The ghost best is
     * the scan's final value.
     */
    method FindBestIndexForType(name: string, highest: bool) returns (result: int, ghost best: real)
      requires influenceMap.grid.Valid()
      ensures AiField() == map[] ==> result == -1
      ensures result != -1 ==> Qualifies(AiField(), influenceMap.FieldByName(name), influenceMap.grid.tiles[..], result)
      ensures result != -1 ==>
                IsBestOver(AiField(), influenceMap.FieldByName(name), influenceMap.grid.tiles[..],
                           highest, AiField()[result], AiField().Keys)
      ensures result != -1 ==> AiField()[result] == best && !RejectedAsWritten(best)
      ensures AiField() != map[] ==>
                IsBestOver(AiField(), influenceMap.FieldByName(name), influenceMap.grid.tiles[..],
                           highest, best, AiField().Keys)
      ensures result == -1 && AiField() != map[] ==>
                RejectedAsWritten(best) ||
                forall k :: Qualifies(AiField(), influenceMap.FieldByName(name), influenceMap.grid.tiles[..], k) ==>
                              AiField()[k] != best
      ensures result == -1 ==>
                forall k :: Qualifies(AiField(), influenceMap.FieldByName(name), influenceMap.grid.tiles[..], k) &&
                            IsBestOver(AiField(), influenceMap.FieldByName(name), influenceMap.grid.tiles[..],
                                       highest, AiField()[k], AiField().Keys) ==>
                              RejectedAsWritten(AiField()[k])
    {
      result, best := -1, -1.0;
      var aiMap := influenceMap.CalculateInfluenceMapByName("ai");
      if |aiMap| == 0 {
        assert AiField() == map[];
        return;
      }
      var grid := influenceMap.grid;
      ghost var named, tiles := influenceMap.FieldByName(name), grid.tiles[..];
      assert forall k :: k in aiMap ==> 0 <= k < grid.tiles.Length by {
        if "ai" in influenceMap.dictionary {
          FieldKeys(grid.layout, tiles, influenceMap.dictionary["ai"], influenceMap.falloff);
        }
      }
      var influence, candidates := ScanField(name, highest, aiMap, named, tiles);
      best := influence;
      assert aiMap == AiField();
      assert IsBestOver(AiField(), named, tiles, highest, influence, AiField().Keys);
      if Rejected(influence, candidates) {
        forall k | Qualifies(aiMap, named, tiles, k) && IsBestOver(aiMap, named, tiles, highest, aiMap[k], aiMap.Keys)
          ensures RejectedAsWritten(aiMap[k])
        {
          BestUnique(aiMap, named, tiles, highest, aiMap[k], influence, aiMap.Keys);
          assert k in candidates;
        }
        return;
      }
      var randomIndex :| 0 <= randomIndex < |candidates|;
      result := candidates[randomIndex];
      assert candidates[randomIndex] in candidates;
      assert Qualifies(aiMap, named, tiles, result);
    }

    /**
     * Pick the best tile and mark it OCCUPIED; every other tile keeps its
     * type. The chosen tile is returned, -1 when there is none.
     */
    method FindBestLocation(name: string, highest: bool) returns (index: int)
      requires Valid()
      modifies influenceMap.grid.tiles
      ensures Valid()
      ensures index == -1 ==> influenceMap.grid.tiles[..] == old(influenceMap.grid.tiles[..])
      ensures index == -1 ==>
                forall k :: old(QualifiesNow(name, k)) &&
                            old(IsBestOver(AiField(), influenceMap.FieldByName(name), influenceMap.grid.tiles[..],
                                           highest, AiField()[k], AiField().Keys)) ==>
                              old(RejectedAsWritten(AiField()[k]))
      ensures index != -1 ==> 0 <= index < influenceMap.grid.tiles.Length
      ensures index != -1 ==> influenceMap.grid.tiles[..] == old(influenceMap.grid.tiles[..])[index := Occupied]
      ensures index != -1 ==> old(QualifiesNow(name, index)) && !QualifiesNow(name, index)
      ensures index != -1 ==> old(index in AiField() && !RejectedAsWritten(AiField()[index]))
      ensures index != -1 ==>
                old(IsBestOver(AiField(), influenceMap.FieldByName(name), influenceMap.grid.tiles[..],
                               highest, AiField()[index], AiField().Keys))
    {
      ghost var best;
      index, best := FindBestIndexForType(name, highest);
      if index == -1 {
        return;
      }
      influenceMap.grid.PlaceGridTileAtIndex(Occupied, index);
    }
  }
}
