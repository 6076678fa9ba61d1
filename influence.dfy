/**
 * Influence fields (InfluenceMap): a named catalogue of influence
 * definitions and the computation of one field, a sparse map from tile
 * index to accumulated influence, over the current grid.
 */
module Influence {
  import opened Wrappers
  import opened Grid

  /**
   * The decayed contribution a source of the given starting influence makes
   * to a neighbour whose larger and smaller coordinate offsets are max and
   * min. The source computes startingInfluence / sqrt(1 + max + 1.2 * min)
   * in single precision; the model leaves the formula abstract.
   */
  type Falloff = (real, nat, nat) -> real

  /** One influence definition (InfluenceData): the emitting tile types, the starting magnitude and the radius. */
  datatype InfluenceData = InfluenceData(tileTypes: seq<TileType>, startingInfluence: real, radius: int)

  /** What CheckIndexOnInfluenceMap reports for k in a computed field: its value, or -1 when k is not a key. */
  function Lookup(f: map<int, real>, k: int): real
  {
    if k in f then f[k] else -1.0
  }

  /** A field's value at k, absent entries read as zero. */
  function Get(m: map<int, real>, k: int): real
  {
    if k in m then m[k] else 0.0
  }

  /** The source's read-then-accumulate update: add v to k's entry, or create it holding v. */
  function Accumulate(m: map<int, real>, k: int, v: real): (r: map<int, real>)
    ensures r.Keys == m.Keys + {k}
    ensures Get(r, k) == Get(m, k) + v
    ensures forall j :: j != k ==> Get(r, j) == Get(m, j)
  {
    if k in m then m[k := m[k] + v] else m[k := v]
  }

  /** The contribution of a source at offset (dx, dy): only |dx| and |dy|, sorted into max and min, matter. */
  function DecayFromOffset(falloff: Falloff, s: real, dx: int, dy: int): real
  {
    var ax, ay := Abs(dx), Abs(dy);
    if ax >= ay then falloff(s, ax, ay) else falloff(s, ay, ax)
  }

  /** The contribution of the source tile src to the tile k. */
  function Decayed(layout: Layout, falloff: Falloff, s: real, src: int, k: int): real
    requires 0 <= src < layout.Size() && 0 <= k < layout.Size()
  {
    var mainPoint := layout.GetPointFromIndex(src);
    var neighborPoint := layout.GetPointFromIndex(k);
    DecayFromOffset(falloff, s, neighborPoint.x - mainPoint.x, neighborPoint.y - mainPoint.y)
  }

  /** A contribution is the same with the axes swapped or either offset negated. */
  lemma DecaySymmetric(falloff: Falloff, s: real, dx: int, dy: int)
    ensures DecayFromOffset(falloff, s, dx, dy) == DecayFromOffset(falloff, s, dy, dx)
    ensures DecayFromOffset(falloff, s, dx, dy) == DecayFromOffset(falloff, s, -dx, dy)
    ensures DecayFromOffset(falloff, s, dx, dy) == DecayFromOffset(falloff, s, dx, -dy)
  {
  }

  /** The innermost loop of CalculateInfluenceMap: add src's decayed contribution to each of ns in turn. */
  function SpreadNeighbors(layout: Layout, falloff: Falloff, s: real, src: int,
                           m: map<int, real>, ns: seq<int>): map<int, real>
    requires 0 <= src < layout.Size()
    requires InRange(ns, layout.Size())
  {
    if ns == [] then m
    else
      var last := ns[|ns| - 1];
      Accumulate(SpreadNeighbors(layout, falloff, s, src, m, ns[..|ns| - 1]), last,
                 Decayed(layout, falloff, s, src, last))
  }

  /** One source tile: its own starting influence, then its neighbours'. */
  function SpreadSource(layout: Layout, data: InfluenceData, falloff: Falloff,
                        m: map<int, real>, src: int): map<int, real>
    requires 0 <= src < layout.Size()
  {
    layout.NeighborsInRange(data.radius, src);
    SpreadNeighbors(layout, falloff, data.startingInfluence, src,
                    Accumulate(m, src, data.startingInfluence), layout.Neighbors(data.radius, src))
  }

  /** The source tiles in turn. */
  function SpreadSources(layout: Layout, data: InfluenceData, falloff: Falloff,
                         m: map<int, real>, srcs: seq<int>): map<int, real>
    requires InRange(srcs, layout.Size())
  {
    if srcs == [] then m
    else SpreadSource(layout, data, falloff, SpreadSources(layout, data, falloff, m, srcs[..|srcs| - 1]), srcs[|srcs| - 1])
  }

  /**
   * The source tiles in the order CalculateInfluenceMap visits them: for each
   * emitting type in turn, the tiles of that type. A tile whose type is
   * listed twice occurs twice.
   */
  function Sources(tiles: seq<TileType>, types: seq<TileType>): seq<nat>
  {
    if types == [] then [] else Sources(tiles, types[..|types| - 1]) + IndicesOfType(tiles, types[|types| - 1])
  }

  /** The field CalculateInfluenceMap(data) returns for the grid tiles. */
  function InfluenceField(layout: Layout, tiles: seq<TileType>, data: InfluenceData, falloff: Falloff): map<int, real>
    requires |tiles| == layout.Size()
  {
    SourcesInRange(tiles, data.tileTypes);
    SpreadSources(layout, data, falloff, map[], Sources(tiles, data.tileTypes))
  }

  // An independent, pointwise reading of the same field.

  /** src touches k: k is src itself or one of its neighbours within radius. */
  predicate Reaches(layout: Layout, radius: int, src: int, k: int)
    requires 0 <= src < layout.Size()
  {
    k == src || k in layout.Neighbors(radius, src)
  }

  /** What one source tile adds at k. */
  function Contribution(layout: Layout, falloff: Falloff, s: real, radius: int, src: int, k: int): real
    requires 0 <= src < layout.Size()
  {
    (if k == src then s else 0.0)
    + (if k in layout.Neighbors(radius, src) then Decayed(layout, falloff, s, src, k) else 0.0)
  }

  /** What a sequence of source tiles adds at k, one term per occurrence. */
  function TotalContribution(layout: Layout, falloff: Falloff, s: real, radius: int,
                             srcs: seq<int>, k: int): real
    requires InRange(srcs, layout.Size())
  {
    if srcs == [] then 0.0
    else TotalContribution(layout, falloff, s, radius, srcs[..|srcs| - 1], k)
         + Contribution(layout, falloff, s, radius, srcs[|srcs| - 1], k)
  }

  lemma {:induction false} SpreadNeighborsAccumulates(layout: Layout, falloff: Falloff, s: real, src: int,
                                                      m: map<int, real>, ns: seq<int>)
    requires 0 <= src < layout.Size()
    requires InRange(ns, layout.Size())
    requires Distinct(ns)
    ensures forall k :: k in SpreadNeighbors(layout, falloff, s, src, m, ns) <==> k in m || k in ns
    ensures forall k :: Get(SpreadNeighbors(layout, falloff, s, src, m, ns), k) ==
                        Get(m, k) + (if k in ns then Decayed(layout, falloff, s, src, k) else 0.0)
  {
    if ns != [] {
      var front, last := ns[..|ns| - 1], ns[|ns| - 1];
      assert ns == front + [last];
      assert last !in front by {
        forall j | 0 <= j < |front| ensures front[j] != last {
          assert ns[j] != ns[|ns| - 1];
        }
      }
      SpreadNeighborsAccumulates(layout, falloff, s, src, m, front);
    }
  }

  /** One source adds its own starting influence and its neighbours' decayed terms, and nothing else. */
  lemma SpreadSourceAccumulates(layout: Layout, data: InfluenceData, falloff: Falloff, m: map<int, real>, src: int)
    requires 0 <= src < layout.Size()
    ensures forall k :: k in SpreadSource(layout, data, falloff, m, src) <==>
                        k in m || Reaches(layout, data.radius, src, k)
    ensures forall k :: Get(SpreadSource(layout, data, falloff, m, src), k) ==
                        Get(m, k) + Contribution(layout, falloff, data.startingInfluence, data.radius, src, k)
  {
    layout.NeighborsDistinct(data.radius, src);
    layout.NeighborsInRange(data.radius, src);
    SpreadNeighborsAccumulates(layout, falloff, data.startingInfluence, src,
                               Accumulate(m, src, data.startingInfluence), layout.Neighbors(data.radius, src));
  }

  /**
   * Entries only accumulate: spreading a sequence of sources over any
   * starting map m adds each source's contributions to what m held.
   */
  lemma {:induction false} SpreadSourcesAccumulates(layout: Layout, data: InfluenceData, falloff: Falloff,
                                                    m: map<int, real>, srcs: seq<int>)
    requires InRange(srcs, layout.Size())
    ensures forall k :: k in SpreadSources(layout, data, falloff, m, srcs) <==>
                        k in m || exists src :: src in srcs && Reaches(layout, data.radius, src, k)
    ensures forall k :: Get(SpreadSources(layout, data, falloff, m, srcs), k) ==
                        Get(m, k) + TotalContribution(layout, falloff, data.startingInfluence, data.radius, srcs, k)
  {
    if srcs != [] {
      var front, last := srcs[..|srcs| - 1], srcs[|srcs| - 1];
      assert srcs == front + [last];
      SpreadSourcesAccumulates(layout, data, falloff, m, front);
      var mid := SpreadSources(layout, data, falloff, m, front);
      SpreadSourceAccumulates(layout, data, falloff, mid, last);
      forall k
        ensures k in SpreadSources(layout, data, falloff, m, srcs) <==>
                k in m || exists src :: src in srcs && Reaches(layout, data.radius, src, k)
      {
        if exists src :: src in srcs && Reaches(layout, data.radius, src, k) {
          var src :| src in srcs && Reaches(layout, data.radius, src, k);
          if src != last {
            assert src in front;
          }
        }
      }
    }
  }

  /** A tile is a source exactly when its type is one of the emitting types. */
  lemma {:induction false} SourcesMembership(tiles: seq<TileType>, types: seq<TileType>, k: int)
    ensures k in Sources(tiles, types) <==> 0 <= k < |tiles| && tiles[k] in types
  {
    if types != [] {
      var front, last := types[..|types| - 1], types[|types| - 1];
      assert types == front + [last];
      SourcesMembership(tiles, front, k);
      IndicesOfTypeMembership(tiles, last, k);
    }
  }

  lemma SourcesInRange(tiles: seq<TileType>, types: seq<TileType>)
    ensures InRange(Sources(tiles, types), |tiles|)
  {
    var r := Sources(tiles, types);
    forall j | 0 <= j < |r| ensures 0 <= r[j] < |tiles| {
      assert r[j] in r;
      SourcesMembership(tiles, types, r[j]);
    }
  }

  /** A tile occurs among the sources once per occurrence of its type among the emitting types. */
  lemma {:induction false} SourcesMultiplicity(tiles: seq<TileType>, types: seq<TileType>, k: int)
    requires 0 <= k < |tiles|
    ensures multiset(Sources(tiles, types))[k] == multiset(types)[tiles[k]]
  {
    if types != [] {
      var front, last := types[..|types| - 1], types[|types| - 1];
      assert types == front + [last];
      SourcesMultiplicity(tiles, front, k);
      IndicesOfTypeDistinct(tiles, last);
      DistinctMultiplicity(IndicesOfType(tiles, last), k);
      IndicesOfTypeMembership(tiles, last, k);
    }
  }

  /** The sources of a concatenated type list are the two lists' sources, one after the other. */
  lemma {:induction false} SourcesConcat(tiles: seq<TileType>, a: seq<TileType>, b: seq<TileType>)
    ensures Sources(tiles, a + b) == Sources(tiles, a) + Sources(tiles, b)
  {
    if b == [] {
      assert a + b == a;
    } else {
      var front, last := b[..|b| - 1], b[|b| - 1];
      calc {
        Sources(tiles, a + b);
        Sources(tiles, (a + b)[..|a + b| - 1]) + IndicesOfType(tiles, (a + b)[|a + b| - 1]);
        { assert (a + b)[..|a + b| - 1] == a + front; }
        Sources(tiles, a + front) + IndicesOfType(tiles, last);
        { SourcesConcat(tiles, a, front); }
        Sources(tiles, a) + Sources(tiles, front) + IndicesOfType(tiles, last);
        Sources(tiles, a) + Sources(tiles, b);
      }
    }
  }

  lemma {:induction false} TotalContributionConcat(layout: Layout, falloff: Falloff, s: real, radius: int,
                                                   x: seq<int>, y: seq<int>, k: int)
    requires InRange(x, layout.Size())
    requires InRange(y, layout.Size())
    ensures TotalContribution(layout, falloff, s, radius, x + y, k) ==
            TotalContribution(layout, falloff, s, radius, x, k) + TotalContribution(layout, falloff, s, radius, y, k)
  {
    if y == [] {
      assert x + y == x;
    } else {
      var front := y[..|y| - 1];
      assert (x + y)[..|x + y| - 1] == x + front;
      assert (x + y)[|x + y| - 1] == y[|y| - 1];
      TotalContributionConcat(layout, falloff, s, radius, x, front, k);
    }
  }

  /** v added to itself n times, as repeated accumulation into one entry does. */
  function Repeated(v: real, n: nat): real
  {
    if n == 0 then 0.0 else Repeated(v, n - 1) + v
  }

  lemma {:induction false} RepeatedIsProduct(v: real, n: nat)
    ensures Repeated(v, n) == v * (n as real)
  {
    if n > 0 {
      RepeatedIsProduct(v, n - 1);
    }
  }

  lemma ContributionWithoutRadius(layout: Layout, falloff: Falloff, s: real, radius: int, src: int, k: int)
    requires radius <= 0 && 0 <= src < layout.Size()
    ensures Contribution(layout, falloff, s, radius, src, k) == if k == src then s else 0.0
  {
    layout.NeighborsLength(radius, src);
  }

  /** With no neighbours to reach, each occurrence of k among the sources adds the starting influence once. */
  lemma {:induction false} TotalContributionWithoutRadius(layout: Layout, falloff: Falloff, s: real, radius: int,
                                                          srcs: seq<int>, k: int)
    requires radius <= 0
    requires InRange(srcs, layout.Size())
    ensures TotalContribution(layout, falloff, s, radius, srcs, k) == Repeated(s, multiset(srcs)[k])
  {
    if srcs != [] {
      var front, last := srcs[..|srcs| - 1], srcs[|srcs| - 1];
      assert multiset(srcs) == multiset(front) + multiset{last} by {
        assert srcs == front + [last];
      }
      TotalContributionWithoutRadius(layout, falloff, s, radius, front, k);
      ContributionWithoutRadius(layout, falloff, s, radius, last, k);
    }
  }

  /**
   * The keys of a computed field are exactly the source tiles and their
   * neighbours within the radius, all of them tiles of the grid.
   */
  lemma FieldKeys(layout: Layout, tiles: seq<TileType>, data: InfluenceData, falloff: Falloff)
    requires |tiles| == layout.Size()
    ensures forall k :: k in InfluenceField(layout, tiles, data, falloff) <==>
              exists src :: 0 <= src < |tiles| && tiles[src] in data.tileTypes && Reaches(layout, data.radius, src, k)
    ensures forall k :: k in InfluenceField(layout, tiles, data, falloff) ==> 0 <= k < |tiles|
  {
    var srcs := Sources(tiles, data.tileTypes);
    SourcesInRange(tiles, data.tileTypes);
    SpreadSourcesAccumulates(layout, data, falloff, map[], srcs);
    forall src: int
      ensures src in srcs <==> 0 <= src < |tiles| && tiles[src] in data.tileTypes
    {
      SourcesMembership(tiles, data.tileTypes, src);
    }
  }

  /**
   * A field's value at any tile is the sum, over every source occurrence,
   * of the starting influence if the tile is that source and the decayed
   * term if it is one of that source's neighbours.
   */
  lemma FieldValues(layout: Layout, tiles: seq<TileType>, data: InfluenceData, falloff: Falloff)
    requires |tiles| == layout.Size()
    ensures InRange(Sources(tiles, data.tileTypes), |tiles|)
    ensures forall k :: Get(InfluenceField(layout, tiles, data, falloff), k) ==
              TotalContribution(layout, falloff, data.startingInfluence, data.radius, Sources(tiles, data.tileTypes), k)
  {
    SourcesInRange(tiles, data.tileTypes);
    SpreadSourcesAccumulates(layout, data, falloff, map[], Sources(tiles, data.tileTypes));
  }

  /**
   * With a radius of zero or less the field holds exactly the source tiles,
   * each with the starting influence times the number of times its type is
   * listed.
   */
  lemma FieldWithoutRadius(layout: Layout, tiles: seq<TileType>, data: InfluenceData, falloff: Falloff)
    requires |tiles| == layout.Size() && data.radius <= 0
    ensures forall k :: k in InfluenceField(layout, tiles, data, falloff) <==> 0 <= k < |tiles| && tiles[k] in data.tileTypes
    ensures forall k :: k in InfluenceField(layout, tiles, data, falloff) ==>
              InfluenceField(layout, tiles, data, falloff)[k] == Repeated(data.startingInfluence, multiset(data.tileTypes)[tiles[k]])
  {
    var f, srcs := InfluenceField(layout, tiles, data, falloff), Sources(tiles, data.tileTypes);
    FieldKeys(layout, tiles, data, falloff);
    FieldValues(layout, tiles, data, falloff);
    forall k | 0 <= k < |tiles|
      ensures Get(f, k) == Repeated(data.startingInfluence, multiset(data.tileTypes)[tiles[k]])
    {
      TotalContributionWithoutRadius(layout, falloff, data.startingInfluence, data.radius, srcs, k);
      SourcesMultiplicity(tiles, data.tileTypes, k);
    }
    forall k
      ensures k in f <==> 0 <= k < |tiles| && tiles[k] in data.tileTypes
    {
      if k in f {
        var src :| 0 <= src < |tiles| && tiles[src] in data.tileTypes && Reaches(layout, data.radius, src, k);
        layout.NeighborsLength(data.radius, src);
      } else if 0 <= k < |tiles| && tiles[k] in data.tileTypes {
        assert Reaches(layout, data.radius, k, k);
      }
    }
  }

  /**
   * Fields add up: the field of a definition whose emitting types are a + b
   * is, tile by tile, the field of a plus the field of b.
   */
  lemma FieldAdditive(layout: Layout, tiles: seq<TileType>, data: InfluenceData, falloff: Falloff,
                      a: seq<TileType>, b: seq<TileType>)
    requires |tiles| == layout.Size() && data.tileTypes == a + b
    ensures forall k :: Get(InfluenceField(layout, tiles, data, falloff), k) ==
              Get(InfluenceField(layout, tiles, data.(tileTypes := a), falloff), k)
              + Get(InfluenceField(layout, tiles, data.(tileTypes := b), falloff), k)
  {
    FieldValues(layout, tiles, data, falloff);
    FieldValues(layout, tiles, data.(tileTypes := a), falloff);
    FieldValues(layout, tiles, data.(tileTypes := b), falloff);
    SourcesConcat(tiles, a, b);
    SourcesInRange(tiles, a);
    SourcesInRange(tiles, b);
    forall k {
      TotalContributionConcat(layout, falloff, data.startingInfluence, data.radius,
                              Sources(tiles, a), Sources(tiles, b), k);
    }
  }

  lemma SpreadSourcesSnoc(layout: Layout, data: InfluenceData, falloff: Falloff,
                          m: map<int, real>, a: seq<int>, x: int)
    requires InRange(a, layout.Size()) && 0 <= x < layout.Size()
    ensures InRange(a + [x], layout.Size())
    ensures SpreadSources(layout, data, falloff, m, a + [x]) ==
            SpreadSource(layout, data, falloff, SpreadSources(layout, data, falloff, m, a), x)
  {
    assert (a + [x])[..|a|] == a;
  }

  /** Spreading a concatenation of source lists is spreading the first, then the second. */
  lemma {:induction false} SpreadSourcesConcat(layout: Layout, data: InfluenceData, falloff: Falloff,
                                               m: map<int, real>, a: seq<int>, b: seq<int>)
    requires InRange(a, layout.Size()) && InRange(b, layout.Size())
    ensures InRange(a + b, layout.Size())
    ensures SpreadSources(layout, data, falloff, m, a + b) ==
            SpreadSources(layout, data, falloff, SpreadSources(layout, data, falloff, m, a), b)
  {
    if b == [] {
      assert a + b == a;
    } else {
      var front := b[..|b| - 1];
      assert (a + b)[..|a + b| - 1] == a + front;
      assert (a + b)[|a + b| - 1] == b[|b| - 1];
      SpreadSourcesConcat(layout, data, falloff, m, a, front);
    }
  }

  // The name -> definition dictionary built in Awake.

  /** Why Awake stopped: the definition array is shorter than the name array, or a name repeats. */
  datatype AwakeError = MissingDefinition(at: nat) | DuplicateName(at: nat)

  /** The dictionary Awake has built so far and the exception that stopped it, if any. */
  datatype Catalogue = Catalogue(dictionary: map<string, InfluenceData>, error: Option<AwakeError>)

  /**
   * The state Awake reaches after visiting the first n names: each name is
   * added with the definition at the same position, until a definition is
   * missing (IndexOutOfRangeException) or Dictionary.Add meets a name that
   * is already present (ArgumentException); after that nothing changes.
   */
  function Register(names: seq<string>, types: seq<InfluenceData>, n: nat): Catalogue
    requires n <= |names|
  {
    if n == 0 then Catalogue(map[], None)
    else
      var c := Register(names, types, n - 1);
      if c.error.Some? then c
      else if n - 1 >= |types| then Catalogue(c.dictionary, Some(MissingDefinition(n - 1)))
      else if names[n - 1] in c.dictionary then Catalogue(c.dictionary, Some(DuplicateName(n - 1)))
      else Catalogue(c.dictionary[names[n - 1] := types[n - 1]], None)
  }

  /** The first failure is final: later names change nothing. */
  lemma {:induction false} RegisterStops(names: seq<string>, types: seq<InfluenceData>, n: nat, m: nat)
    requires n <= m <= |names| && Register(names, types, n).error.Some?
    ensures Register(names, types, m) == Register(names, types, n)
  {
    if m > n {
      RegisterStops(names, types, n, m - 1);
    }
  }

  /**
   * Awake succeeds exactly when every name has a definition and no name
   * repeats; then the dictionary maps each name to the definition at its
   * position and holds nothing else.
   */
  lemma {:induction false} RegisterSucceeds(names: seq<string>, types: seq<InfluenceData>, n: nat)
    requires n <= |names|
    ensures Register(names, types, n).error == None <==> n <= |types| && Distinct(names[..n])
    ensures Register(names, types, n).error == None ==>
              Register(names, types, n).dictionary.Keys == set i | 0 <= i < n :: names[i]
    ensures Register(names, types, n).error == None ==>
              forall i :: 0 <= i < n ==> Register(names, types, n).dictionary[names[i]] == types[i]
  {
    if n > 0 {
      RegisterSucceeds(names, types, n - 1);
      var c := Register(names, types, n - 1);
      assert names[..n] == names[..n - 1] + [names[n - 1]];
      if c.error == None && n - 1 < |types| {
        assert names[n - 1] in c.dictionary <==> exists i :: 0 <= i < n - 1 && names[i] == names[n - 1];
        if !Distinct(names[..n]) {
          var a, b :| 0 <= a < b < n && names[..n][a] == names[..n][b];
          assert names[a] == names[b];
        }
      } else if c.error.Some? {
        assert !Distinct(names[..n - 1]) || n - 1 > |types|;
        if !Distinct(names[..n - 1]) {
          var a, b :| 0 <= a < b < n - 1 && names[..n - 1][a] == names[..n - 1][b];
          assert names[..n][a] == names[..n][b];
        }
      }
    }
  }

  /** The loop of Awake. */
  method BuildDictionary(names: seq<string>, types: seq<InfluenceData>)
    returns (dictionary: map<string, InfluenceData>, error: Option<AwakeError>)
    ensures Catalogue(dictionary, error) == Register(names, types, |names|)
    ensures error == None <==> |names| <= |types| && Distinct(names)
  {
    dictionary, error := map[], None;
    for i := 0 to |names|
      invariant Register(names, types, i) == Catalogue(dictionary, None)
    {
      if i >= |types| {
        error := Some(MissingDefinition(i));
        RegisterStops(names, types, i + 1, |names|);
        assert names[..|names|] == names;
        RegisterSucceeds(names, types, |names|);
        return;
      }
      if names[i] in dictionary {
        error := Some(DuplicateName(i));
        RegisterStops(names, types, i + 1, |names|);
        assert names[..|names|] == names;
        RegisterSucceeds(names, types, |names|);
        return;
      }
      dictionary := dictionary[names[i] := types[i]];
    }
    assert names[..|names|] == names;
    RegisterSucceeds(names, types, |names|);
  }

  /** The influence-map component: its definitions, the grid it reads and the decay it applies. */
  class InfluenceMap {
    const grid: WorldGrid
    const falloff: Falloff
    const dictionary: map<string, InfluenceData>
    const awakeError: Option<AwakeError>

    /** The component after Awake over the serialised names and definitions. */
    constructor (grid: WorldGrid, falloff: Falloff, names: seq<string>, types: seq<InfluenceData>)
      ensures this.grid == grid && this.falloff == falloff
      ensures Catalogue(dictionary, awakeError) == Register(names, types, |names|)
    {
      this.grid := grid;
      this.falloff := falloff;
      var d, e := BuildDictionary(names, types);
      dictionary, awakeError := d, e;
    }

    /** The field CalculateInfluenceMapByName(name) returns for the current grid. */
    ghost function FieldByName(name: string): map<int, real>
      reads grid.tiles
      requires grid.Valid()
    {
      if name in dictionary then InfluenceField(grid.layout, grid.tiles[..], dictionary[name], falloff) else map[]
    }

    /** The value CheckIndexOnInfluenceMap(name, index) returns for the current grid. */
    ghost function IndexValue(name: string, index: int): real
      reads grid.tiles
      requires grid.Valid()
    {
      Lookup(FieldByName(name), index)
    }

    /**
     * The three nested loops: every tile of each emitting type receives the
     * starting influence and passes a decayed share to each neighbour. The
     * method has no modifies clause, so the grid is left as it was.
     */
    method CalculateInfluenceMap(data: InfluenceData) returns (m: map<int, real>)
      requires grid.Valid()
      ensures m == InfluenceField(grid.layout, grid.tiles[..], data, falloff)
    {
      ghost var tiles := grid.tiles[..];
      m := map[];
      for t := 0 to |data.tileTypes|
        invariant InRange(Sources(tiles, data.tileTypes[..t]), |tiles|)
        invariant m == SpreadSources(grid.layout, data, falloff, map[], Sources(tiles, data.tileTypes[..t]))
      {
        ghost var before := m;
        m := InfluenceFromType(data, m, data.tileTypes[t]);
        IndicesOfTypeInRange(tiles, data.tileTypes[t]);
        assert Sources(tiles, data.tileTypes[..t + 1]) ==
               Sources(tiles, data.tileTypes[..t]) + IndicesOfType(tiles, data.tileTypes[t]) by {
          assert data.tileTypes[..t + 1][..t] == data.tileTypes[..t];
        }
        SpreadSourcesConcat(grid.layout, data, falloff, map[], Sources(tiles, data.tileTypes[..t]),
                            IndicesOfType(tiles, data.tileTypes[t]));
      }
      assert data.tileTypes[..|data.tileTypes|] == data.tileTypes;
    }

    /** The body of the outer loop: every tile of one emitting type in ascending index order. */
    method InfluenceFromType(data: InfluenceData, m0: map<int, real>, t: TileType) returns (m: map<int, real>)
      requires grid.Valid()
      ensures InRange(IndicesOfType(grid.tiles[..], t), grid.layout.Size())
      ensures m == SpreadSources(grid.layout, data, falloff, m0, IndicesOfType(grid.tiles[..], t))
    {
      var cubes := grid.GetGridIndicesFromType(t);
      IndicesOfTypeInRange(grid.tiles[..], t);
      m := m0;
      for c := 0 to |cubes|
        invariant m == SpreadSources(grid.layout, data, falloff, m0, cubes[..c])
      {
        assert cubes[..c + 1] == cubes[..c] + [cubes[c]];
        SpreadSourcesSnoc(grid.layout, data, falloff, m0, cubes[..c], cubes[c]);
        m := InfluenceFromSource(data, m, cubes[c]);
      }
      assert cubes[..|cubes|] == cubes;
    }

    /** The body of the middle loop: one source tile and the innermost loop over its neighbours. */
    method InfluenceFromSource(data: InfluenceData, m0: map<int, real>, cubeIndex: int) returns (m: map<int, real>)
      requires grid.Valid() && 0 <= cubeIndex < grid.tiles.Length
      ensures m == SpreadSource(grid.layout, data, falloff, m0, cubeIndex)
    {
      var layout := grid.layout;
      m := Accumulate(m0, cubeIndex, data.startingInfluence);
      ghost var seeded := m;
      var mainPoint := layout.GetPointFromIndex(cubeIndex);
      var neighbors := grid.GetNeighbors(data.radius, cubeIndex);
      layout.NeighborsInRange(data.radius, cubeIndex);
      for n := 0 to |neighbors|
        invariant m == SpreadNeighbors(layout, falloff, data.startingInfluence, cubeIndex, seeded, neighbors[..n])
      {
        var neighbor := neighbors[n];
        var neighborPoint := layout.GetPointFromIndex(neighbor);
        var newInfluence := NeighborInfluence(data.startingInfluence, mainPoint, neighborPoint);
        assert newInfluence == Decayed(layout, falloff, data.startingInfluence, cubeIndex, neighbor);
        assert neighbors[..n + 1][..n] == neighbors[..n];
        m := Accumulate(m, neighbor, newInfluence);
      }
      assert neighbors[..|neighbors|] == neighbors;
    }

    /** The decay step of the innermost loop: the offset's larger and smaller absolute coordinates feed the falloff. */
    method NeighborInfluence(s: real, mainPoint: Point, neighborPoint: Point) returns (newInfluence: real)
      ensures newInfluence == DecayFromOffset(falloff, s, neighborPoint.x - mainPoint.x, neighborPoint.y - mainPoint.y)
    {
      var dx, dy := Abs(neighborPoint.x - mainPoint.x), Abs(neighborPoint.y - mainPoint.y);
      var max, min;
      if dx >= dy {
        max, min := dx, dy;
      } else {
        max, min := dy, dx;
      }
      newInfluence := falloff(s, max, min);
    }

    /** The field of a named definition; an unknown name gives an empty field. */
    method CalculateInfluenceMapByName(name: string) returns (m: map<int, real>)
      requires grid.Valid()
      ensures name !in dictionary ==> m == map[]
      ensures name in dictionary ==> m == InfluenceField(grid.layout, grid.tiles[..], dictionary[name], falloff)
      ensures m == FieldByName(name)
    {
      if name in dictionary {
        m := CalculateInfluenceMap(dictionary[name]);
      } else {
        m := map[];
      }
    }

    /**
     * The value of a named field at one tile, or -1 when the name is unknown
     * or the tile is not a key of the field.
     */
    method CheckIndexOnInfluenceMap(name: string, index: int) returns (v: real)
      requires grid.Valid()
      ensures name !in dictionary ==> v == -1.0
      ensures name in dictionary && index !in InfluenceField(grid.layout, grid.tiles[..], dictionary[name], falloff) ==> v == -1.0
      ensures name in dictionary && index in InfluenceField(grid.layout, grid.tiles[..], dictionary[name], falloff) ==>
                v == InfluenceField(grid.layout, grid.tiles[..], dictionary[name], falloff)[index]
      ensures v == IndexValue(name, index)
    {
      v := -1.0;
      if name in dictionary {
        var influenceMap := CalculateInfluenceMap(dictionary[name]);
        if index in influenceMap {
          v := influenceMap[index];
        }
      }
    }
  }
}
