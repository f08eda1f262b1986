/** The composition version of the bicycle example: a factory turns
    positional configuration tuples into `Part` records, `Parts` wraps the
    ordered array of parts and selects those that need a spare, and
    `Bicycle` delegates its spares to the parts it holds. */
module CompositionBikes {
  import opened RubyValues

  /** A part (an `OpenStruct` with three fields). `needsSpare` holds whatever
      object the configuration gave; only its truthiness matters. */
  datatype Part = Part(name: Value, description: Value, needsSpare: Value)

  /** Whether a part is selected by `spares`. */
  predicate NeedsSpare(p: Part) {
    Truthy(p.needsSpare)
  }

  /** `PartsFactory.create_part`: fields by position; the third defaults to
      `true` only when the tuple has no third element. A tuple that is too
      short leaves nil in the missing fields. */
  function CreatePart(config: seq<Value>): (p: Part)
    ensures |config| >= 1 ==> p.name == config[0]
    ensures |config| >= 2 ==> p.description == config[1]
    ensures |config| == 0 ==> p.name == Nil
    ensures |config| <= 1 ==> p.description == Nil
    ensures |config| >= 3 ==> p.needsSpare == config[2]
    ensures |config| <= 2 ==> p.needsSpare == Bool(true)
  {
    Part(At(config, 0), At(config, 1), Fetch(config, 2, Bool(true)))
  }

  /** `config.collect { |part_config| create_part(part_config) }`. */
  function CreateParts(config: seq<seq<Value>>): (ps: seq<Part>)
    ensures |ps| == |config|
    ensures forall i :: 0 <= i < |config| ==> ps[i] == CreatePart(config[i])
  {
    if config == [] then [] else [CreatePart(config[0])] + CreateParts(config[1..])
  }

  /** `select { |part| part.needs_spare }` over the array of parts. */
  function SelectSpares(ps: seq<Part>): (r: seq<Part>)
    ensures |r| <= |ps|
    ensures forall k :: 0 <= k < |r| ==> NeedsSpare(r[k])
  {
    if ps == [] then []
    else if NeedsSpare(ps[0]) then [ps[0]] + SelectSpares(ps[1..])
    else SelectSpares(ps[1..])
  }

  /** `Parts`: an array of parts, to which `size` and `each` are delegated. */
  datatype Parts = Parts(parts: seq<Part>) {

    function Size(): nat {
      |parts|
    }

    /** `spares`: the parts that need a spare, in their original order. */
    function Spares(): (r: seq<Part>)
      ensures |r| <= Size()
      ensures forall k :: 0 <= k < |r| ==> NeedsSpare(r[k])
    {
      SelectSpares(parts)
    }
  }

  /** `PartsFactory.build(config:)` with the default `parts_class`. */
  function Build(config: seq<seq<Value>>): (r: Parts)
    ensures r.Size() == |config|
    ensures forall i :: 0 <= i < |config| ==> r.parts[i] == CreatePart(config[i])
  {
    Parts(CreateParts(config))
  }

  /** `Bicycle`: a size and the parts it is composed of. */
  datatype Bicycle = Bicycle(size: Value, parts: Parts) {

    /** `spares` (the method defined with the first `class Bicycle`, still
        present after the class is reopened). */
    function Spares(): (r: seq<Part>)
      ensures r == parts.Spares()
      ensures |r| <= parts.Size()
      ensures forall k :: 0 <= k < |r| ==> NeedsSpare(r[k])
    {
      parts.Spares()
    }

    /** `local_spares`, added when the class is reopened. */
    function LocalSpares(): (r: seq<Part>)
      ensures r == Spares()
    {
      parts.Spares()
    }
  }

  /** The positions in `idx` increase strictly. */
  ghost predicate Increasing(idx: seq<nat>) {
    forall j, k :: 0 <= j < k < |idx| ==> idx[j] < idx[k]
  }

  /** `idx` lists, in increasing order, positions of `ps` whose parts make up `r`. */
  ghost predicate Embeds(ps: seq<Part>, r: seq<Part>, idx: seq<nat>) {
    && |idx| == |r|
    && Increasing(idx)
    && (forall k :: 0 <= k < |idx| ==> idx[k] < |ps| && r[k] == ps[idx[k]])
  }

  /** The positions in `idx` are precisely those of the parts needing a spare. */
  ghost predicate PicksSpares(ps: seq<Part>, idx: seq<nat>) {
    forall i :: 0 <= i < |ps| ==> (NeedsSpare(ps[i]) <==> i in idx)
  }

  /** `r` consists of exactly the parts of `ps` that need a spare, in order. */
  ghost predicate SelectsSpares(ps: seq<Part>, r: seq<Part>, idx: seq<nat>) {
    Embeds(ps, r, idx) && PicksSpares(ps, idx)
  }

  /** Every position shifted one to the right. */
  function Shift(idx: seq<nat>): (s: seq<nat>)
    ensures |s| == |idx|
    ensures forall k :: 0 <= k < |idx| ==> s[k] == idx[k] + 1
  {
    if idx == [] then [] else [idx[0] + 1] + Shift(idx[1..])
  }

  /** Every position shifted one to the left. */
  function Unshift(idx: seq<nat>): (s: seq<nat>)
    requires forall k :: 0 <= k < |idx| ==> idx[k] >= 1
    ensures |s| == |idx|
    ensures forall k :: 0 <= k < |idx| ==> s[k] == idx[k] - 1
  {
    if idx == [] then [] else [idx[0] - 1] + Unshift(idx[1..])
  }

  lemma ShiftIn(idx: seq<nat>, i: nat)
    ensures i in idx <==> i + 1 in Shift(idx)
    ensures 0 !in Shift(idx)
  {
    var s := Shift(idx);
    if i in idx {
      var k :| 0 <= k < |idx| && idx[k] == i;
      assert s[k] == i + 1;
    }
    if i + 1 in s {
      var k :| 0 <= k < |s| && s[k] == i + 1;
      assert idx[k] == i;
    }
  }

  lemma UnshiftIn(idx: seq<nat>, i: nat)
    requires forall k :: 0 <= k < |idx| ==> idx[k] >= 1
    ensures i + 1 in idx <==> i in Unshift(idx)
  {
    var s := Unshift(idx);
    assert Shift(s) == idx;
    ShiftIn(s, i);
  }

  /** Extending the parts at the front keeps an embedding, skipping or taking the new part. */
  lemma EmbedsCons(ps: seq<Part>, r: seq<Part>, tail: seq<nat>)
    requires |ps| > 0 && Embeds(ps[1..], r, tail)
    ensures Embeds(ps, r, Shift(tail))
    ensures Embeds(ps, [ps[0]] + r, [0] + Shift(tail))
  {
    var s := Shift(tail);
    forall k | 0 <= k < |s| ensures s[k] < |ps| && r[k] == ps[s[k]] {
      assert ps[1..][tail[k]] == ps[tail[k] + 1];
    }
    var idx := [0] + s;
    var r' := [ps[0]] + r;
    forall k | 1 <= k < |idx| ensures idx[k] < |ps| && r'[k] == ps[idx[k]] {
      assert idx[k] == s[k - 1] && r'[k] == r[k - 1];
    }
  }

  lemma PicksCons(ps: seq<Part>, tail: seq<nat>)
    requires |ps| > 0 && PicksSpares(ps[1..], tail)
    ensures NeedsSpare(ps[0]) ==> PicksSpares(ps, [0] + Shift(tail))
    ensures !NeedsSpare(ps[0]) ==> PicksSpares(ps, Shift(tail))
  {
    var s := Shift(tail);
    ShiftIn(tail, 0);
    forall i | 1 <= i < |ps| ensures NeedsSpare(ps[i]) <==> i in s {
      assert ps[i] == ps[1..][i - 1];
      ShiftIn(tail, i - 1);
    }
  }

  /** Dropping the first part from an embedding that starts there, or skips it. */
  lemma EmbedsTail(ps: seq<Part>, r: seq<Part>, idx: seq<nat>)
    requires |ps| > 0 && Embeds(ps, r, idx)
    requires forall k :: 0 <= k < |idx| ==> idx[k] >= 1
    ensures Embeds(ps[1..], r, Unshift(idx))
  {
    var s := Unshift(idx);
    forall k | 0 <= k < |s| ensures s[k] < |ps[1..]| && r[k] == ps[1..][s[k]] {
      assert ps[1..][s[k]] == ps[idx[k]];
    }
  }

  lemma PicksTail(ps: seq<Part>, idx: seq<nat>)
    requires |ps| > 0
    requires forall i :: 1 <= i < |ps| ==> (NeedsSpare(ps[i]) <==> i in idx)
    requires forall k :: 0 <= k < |idx| ==> idx[k] >= 1
    ensures PicksSpares(ps[1..], Unshift(idx))
  {
    forall i | 0 <= i < |ps[1..]| ensures NeedsSpare(ps[1..][i]) <==> i in Unshift(idx) {
      assert ps[1..][i] == ps[i + 1];
      UnshiftIn(idx, i);
    }
  }

  /** `spares` keeps exactly the parts that need a spare, in their original
      relative order (so its result is a subsequence of the parts). */
  lemma {:induction false} SparesSelectsInOrder(ps: seq<Part>) returns (idx: seq<nat>)
    ensures SelectsSpares(ps, SelectSpares(ps), idx)
  {
    if ps == [] {
      idx := [];
    } else {
      var tail := SparesSelectsInOrder(ps[1..]);
      EmbedsCons(ps, SelectSpares(ps[1..]), tail);
      PicksCons(ps, tail);
      if NeedsSpare(ps[0]) {
        idx := [0] + Shift(tail);
      } else {
        idx := Shift(tail);
      }
    }
  }

  /** When the first part needs a spare, an exact selection starts with it. */
  lemma HeadTaken(ps: seq<Part>, r: seq<Part>, idx: seq<nat>)
    requires SelectsSpares(ps, r, idx) && |ps| > 0 && NeedsSpare(ps[0])
    ensures |r| > 0 && r[0] == ps[0] && idx[0] == 0
    ensures forall k :: 0 <= k < |idx[1..]| ==> idx[1..][k] >= 1
    ensures SelectsSpares(ps[1..], r[1..], Unshift(idx[1..]))
  {
    assert 0 in idx;
    var j :| 0 <= j < |idx| && idx[j] == 0;
    assert forall k :: 0 < k < |idx| ==> idx[0] < idx[k];
    assert j == 0;
    var tail := idx[1..];
    assert Embeds(ps, r[1..], tail) by {
      forall k | 0 <= k < |tail| ensures tail[k] < |ps| && r[1..][k] == ps[tail[k]] {
        assert tail[k] == idx[k + 1];
      }
    }
    forall i | 1 <= i < |ps| ensures NeedsSpare(ps[i]) <==> i in tail {
      if i in idx {
        var k :| 0 <= k < |idx| && idx[k] == i;
        assert tail[k - 1] == i;
      }
    }
    EmbedsTail(ps, r[1..], tail);
    PicksTail(ps, tail);
  }

  /** When the first part needs no spare, an exact selection skips it. */
  lemma HeadSkipped(ps: seq<Part>, r: seq<Part>, idx: seq<nat>)
    requires SelectsSpares(ps, r, idx) && |ps| > 0 && !NeedsSpare(ps[0])
    ensures forall k :: 0 <= k < |idx| ==> idx[k] >= 1
    ensures SelectsSpares(ps[1..], r, Unshift(idx))
  {
    EmbedsTail(ps, r, idx);
    PicksTail(ps, idx);
  }

  /** Conversely, any sequence that takes exactly the parts needing a spare,
      in order, is what `spares` returns: the two directions together
      characterise `spares` completely. */
  lemma {:induction false} SparesUnique(ps: seq<Part>, r: seq<Part>, idx: seq<nat>)
    requires SelectsSpares(ps, r, idx)
    ensures r == SelectSpares(ps)
  {
    if ps == [] {
      assert idx == [];
    } else if NeedsSpare(ps[0]) {
      HeadTaken(ps, r, idx);
      SparesUnique(ps[1..], r[1..], Unshift(idx[1..]));
      assert r == [r[0]] + r[1..];
    } else {
      HeadSkipped(ps, r, idx);
      SparesUnique(ps[1..], r, Unshift(idx));
    }
  }

  /** Selecting again changes nothing: every part `spares` returns needs a spare. */
  lemma {:induction false} SparesIdempotent(ps: seq<Part>)
    ensures SelectSpares(SelectSpares(ps)) == SelectSpares(ps)
  {
    if ps != [] {
      SparesIdempotent(ps[1..]);
    }
  }

  /** End to end: a bicycle built from a configuration has as spares exactly
      the parts built from the tuples that have no third element or a truthy
      one, in configuration order. */
  lemma BuiltBicycleSpares(size: Value, config: seq<seq<Value>>) returns (idx: seq<nat>)
    ensures |idx| == |Bicycle(size, Build(config)).Spares()|
    ensures forall k :: 0 <= k < |idx| ==> (idx[k] < |config|
      && Bicycle(size, Build(config)).Spares()[k] == CreatePart(config[idx[k]]))
    ensures forall j, k :: 0 <= j < k < |idx| ==> idx[j] < idx[k]
    ensures forall i :: 0 <= i < |config| ==>
      (i in idx <==> |config[i]| <= 2 || Truthy(config[i][2]))
  {
    idx := SparesSelectsInOrder(Build(config).parts);
  }

  /** The road-bike configuration of the composition demo. */
  function RoadConfig(): seq<seq<Value>> {
    [[Str("chain"), Str("11-speed")],
     [Str("tire_size"), Str("23")],
     [Str("tape_color"), Str("red")]]
  }

  /** The mountain-bike configuration of the composition demo. */
  function MountainConfig(): seq<seq<Value>> {
    [[Str("chain"), Str("11-speed")],
     [Str("tire_size"), Str("2.1")],
     [Str("front_shock"), Str("Manitou")],
     [Str("rear_shock"), Str("Fox"), Bool(false)]]
  }

  /** Every road-bike part defaults to needing a spare. */
  lemma RoadBikeSpares()
    ensures Bicycle(Str("L"), Build(RoadConfig())).Spares() ==
      [Part(Str("chain"), Str("11-speed"), Bool(true)),
       Part(Str("tire_size"), Str("23"), Bool(true)),
       Part(Str("tape_color"), Str("red"), Bool(true))]
  {
  }

  /** The rear shock is configured with `false` and is left out. */
  lemma MountainBikeSpares()
    ensures Bicycle(Str("L"), Build(MountainConfig())).Spares() ==
      [Part(Str("chain"), Str("11-speed"), Bool(true)),
       Part(Str("tire_size"), Str("2.1"), Bool(true)),
       Part(Str("front_shock"), Str("Manitou"), Bool(true))]
  {
  }
}
