/** `RevealingReferences`: raw `[rim, tire]` cells are wrapped in `Wheel`
    structs once, at construction, and the diameters are computed from the
    structs. Ruby integers are unbounded, so `int` is exact. */
module RevealingReferences {
  import opened RubyValues

  /** `Wheel = Struct.new(:rim, :tire)`; a field is `None` where the cell was
      too short and Ruby stored nil. */
  datatype Wheel = Wheel(rim: Option<int>, tire: Option<int>)

  /** Both fields were present in the cell. */
  predicate Complete(w: Wheel) {
    w.rim.Some? && w.tire.Some?
  }

  /** `wheelify`: one `Wheel` per cell, from the cell's first two elements. */
  function Wheelify(data: seq<seq<int>>): (ws: seq<Wheel>)
    ensures |ws| == |data|
    ensures forall i :: 0 <= i < |data| && |data[i]| >= 2 ==>
      ws[i] == Wheel(Some(data[i][0]), Some(data[i][1]))
    ensures forall i :: 0 <= i < |data| && |data[i]| == 1 ==> ws[i].rim == Some(data[i][0])
    ensures forall i :: 0 <= i < |data| ==>
      (ws[i].rim.None? <==> |data[i]| == 0) && (ws[i].tire.None? <==> |data[i]| < 2)
  {
    if data == [] then []
    else [Wheel(Index(data[0], 0), Index(data[0], 1))] + Wheelify(data[1..])
  }

  /** `diameter(wheel)`: `rim + tire * 2`. The argument `tire * 2` is
      evaluated before `+` is sent to `rim`, so a nil tire fails first. */
  function Diameter(w: Wheel): (r: Result<int>)
    ensures w.tire.None? ==> r == Err(NoMethodError("*"))
    ensures w.tire.Some? && w.rim.None? ==> r == Err(NoMethodError("+"))
    ensures Complete(w) ==> r == Ok(w.rim.value + 2 * w.tire.value)
  {
    if w.tire.None? then Err(NoMethodError("*"))
    else if w.rim.None? then Err(NoMethodError("+"))
    else Ok(w.rim.value + w.tire.value * 2)
  }

  /** `wheels.collect { |wheel| diameter(wheel) }`: stops at the first wheel
      whose diameter raises. */
  function DiametersOf(ws: seq<Wheel>): (r: Result<seq<int>>)
    ensures r.Ok? <==> forall i :: 0 <= i < |ws| ==> Complete(ws[i])
    ensures r.Ok? ==> |r.value| == |ws|
    ensures r.Ok? ==> forall i :: 0 <= i < |ws| ==>
      r.value[i] == ws[i].rim.value + 2 * ws[i].tire.value
  {
    if ws == [] then Ok([])
    else
      match Diameter(ws[0])
      case Err(e) => Err(e)
      case Ok(d) =>
        match DiametersOf(ws[1..])
        case Err(e) => Err(e)
        case Ok(ds) => Ok([d] + ds)
  }

  /** The object: `initialize(data)` stores `wheelify(data)`. */
  datatype References = References(wheels: seq<Wheel>) {
    function Diameters(): Result<seq<int>> {
      DiametersOf(wheels)
    }
  }

  function New(data: seq<seq<int>>): References {
    References(Wheelify(data))
  }

  /** When `diameters` raises, the exception is the one of the first wheel
      that is missing a field. */
  lemma {:induction false} DiametersFailsAtFirstIncomplete(ws: seq<Wheel>)
    requires DiametersOf(ws).Err?
    ensures exists k :: (0 <= k < |ws| && !Complete(ws[k])
      && (forall j :: 0 <= j < k ==> Complete(ws[j]))
      && DiametersOf(ws).error == NoMethodError(if ws[k].tire.None? then "*" else "+"))
  {
    if Diameter(ws[0]).Err? {
      assert !Complete(ws[0]);
    } else {
      DiametersFailsAtFirstIncomplete(ws[1..]);
      var k :| 0 <= k < |ws[1..]| && !Complete(ws[1..][k])
        && (forall j :: 0 <= j < k ==> Complete(ws[1..][j]))
        && DiametersOf(ws[1..]).error == Diameter(ws[1..][k]).error;
      assert Complete(ws[0]);
      assert forall j :: 0 <= j < k + 1 ==> Complete(ws[j]) by {
        forall j | 0 <= j < k + 1 ensures Complete(ws[j]) {
          if j > 0 { assert ws[j] == ws[1..][j - 1]; }
        }
      }
      assert ws[k + 1] == ws[1..][k];
    }
  }

  /** End to end, from the raw data: the diameters exist exactly when every
      cell holds a rim and a tire, and then the i-th one is
      `data[i][0] + 2 * data[i][1]`. */
  lemma DiametersOfData(data: seq<seq<int>>)
    ensures New(data).Diameters().Ok? <==> forall i :: 0 <= i < |data| ==> |data[i]| >= 2
    ensures New(data).Diameters().Ok? ==>
      var ds := New(data).Diameters().value;
      |ds| == |data| && forall i :: 0 <= i < |data| ==> ds[i] == data[i][0] + 2 * data[i][1]
  {
    var ws := Wheelify(data);
    assert forall i :: 0 <= i < |data| ==> (Complete(ws[i]) <==> |data[i]| >= 2);
  }
}
