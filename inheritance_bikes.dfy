/** The inheritance version of the bicycle example: `Parts` stores the chain
    and tire size given as keyword options, each subclass stores its own
    extra options in `post_initialize`, and `spares` merges the subclass's
    `local_spares` hash into the common one. */
module InheritanceBikes {
  import opened RubyValues

  /** Keyword options and spares hashes: symbol name to value. */
  type Hash = map<string, Value>

  /** `opts[:key]`: nil when the option was not given. */
  function Lookup(opts: Hash, key: string): Value {
    if key in opts then opts[key] else Nil
  }

  /** `Hash#merge`: the keys of both, the right-hand value winning on a clash. */
  function Merge(base: Hash, other: Hash): (m: Hash)
    ensures m.Keys == base.Keys + other.Keys
    ensures forall k :: k in other ==> m[k] == other[k]
    ensures forall k :: k in base && k !in other ==> m[k] == base[k]
  {
    base + other
  }

  /** Which class `new` was sent to. */
  datatype Kind = BaseParts | RoadBikeParts | MountainBikeParts

  /** The instance variables each subclass adds in `post_initialize`. */
  datatype LocalFields =
    | NoLocal
    | Road(tapeColor: Value)
    | Mountain(frontShock: Value, rearShock: Value)

  /** A `Parts` instance: `@chain`, `@tire_size` and the subclass's fields. */
  datatype Parts = Parts(chain: Value, tireSize: Value, local: LocalFields) {

    /** `local_spares`, as each class defines it. */
    function LocalSpares(): (m: Hash)
      ensures local.NoLocal? ==> m == map[]
      ensures local.Road? ==> m.Keys == {"tape_color"} && m["tape_color"] == local.tapeColor
      ensures local.Mountain? ==>
        (m.Keys == {"front_shock", "rear_shock"}
         && m["front_shock"] == local.frontShock && m["rear_shock"] == local.rearShock)
    {
      match local
      case NoLocal => map[]
      case Road(tape) => map["tape_color" := tape]
      case Mountain(front, rear) => map["front_shock" := front, "rear_shock" := rear]
    }

    /** `spares`: chain and tire size merged with the subclass's local spares. */
    function Spares(): (m: Hash)
      ensures m.Keys == {"chain", "tire_size"} + LocalSpares().Keys
      ensures forall k :: k in LocalSpares() ==> m[k] == LocalSpares()[k]
      ensures "chain" !in LocalSpares() ==> m["chain"] == chain
      ensures "tire_size" !in LocalSpares() ==> m["tire_size"] == tireSize
    {
      Merge(map["chain" := chain, "tire_size" := tireSize], LocalSpares())
    }
  }

  /** `Parts.new(**opts)` as written. The base class declares
      `post_initialize(opts)` with one positional parameter while
      `initialize` calls it with `**opts`; when no option is given, Ruby 3.0
      and later pass no argument at all for the splat and raise `ArgumentError` (0 given,
      1 expected). Otherwise the options hash is passed positionally and
      ignored. */
  function NewAsWritten(kind: Kind, opts: Hash): (r: Result<Parts>)
    ensures r.Err? <==> kind == BaseParts && opts == map[]
    ensures r.Ok? ==> r.value == New(kind, opts)
  {
    if kind == BaseParts && opts == map[] then Err(ArgumentError(0, 1))
    else Ok(New(kind, opts))
  }

  /** `Parts.new(**opts)` as evidently intended: the base `post_initialize`
      ignores whatever options it gets, so construction never fails. The
      options are copied verbatim; an absent one leaves nil, whatever the
      class's `default_chain` or `default_tire_size` would say. */
  function New(kind: Kind, opts: Hash): (p: Parts)
    ensures p.chain == Lookup(opts, "chain") && p.tireSize == Lookup(opts, "tire_size")
    ensures "chain" !in opts ==> p.chain == Nil
    ensures "tire_size" !in opts ==> p.tireSize == Nil
    ensures kind == BaseParts <==> p.local.NoLocal?
    ensures kind == RoadBikeParts <==> p.local == Road(Lookup(opts, "tape_color"))
    ensures kind == MountainBikeParts <==>
      p.local == Mountain(Lookup(opts, "front_shock"), Lookup(opts, "rear_shock"))
  {
    match kind
    case BaseParts => Parts(Lookup(opts, "chain"), Lookup(opts, "tire_size"), NoLocal)
    case RoadBikeParts => Parts(Lookup(opts, "chain"), Lookup(opts, "tire_size"), Road(Lookup(opts, "tape_color")))
    case MountainBikeParts =>
      Parts(Lookup(opts, "chain"), Lookup(opts, "tire_size"),
            Mountain(Lookup(opts, "front_shock"), Lookup(opts, "rear_shock")))
  }

  /** The discrepancy: `Parts.new` with no options raises. */
  lemma BaseWithoutOptionsRaises()
    ensures NewAsWritten(BaseParts, map[]) == Err(ArgumentError(0, 1))
  {
  }

  /** The keys of `spares` for each class: the base class adds nothing to
      `{chain, tire_size}`, road parts add only `tape_color`, mountain parts
      only `front_shock` and `rear_shock`; every value is the option given
      to `new`, or nil. */
  lemma SparesByKind(kind: Kind, opts: Hash)
    ensures var s := New(kind, opts).Spares();
      && s["chain"] == Lookup(opts, "chain")
      && s["tire_size"] == Lookup(opts, "tire_size")
      && (kind == BaseParts ==> s.Keys == {"chain", "tire_size"})
      && (kind == RoadBikeParts ==>
            (s.Keys == {"chain", "tire_size", "tape_color"}
             && s["tape_color"] == Lookup(opts, "tape_color")))
      && (kind == MountainBikeParts ==>
            (s.Keys == {"chain", "tire_size", "front_shock", "rear_shock"}
             && s["front_shock"] == Lookup(opts, "front_shock")
             && s["rear_shock"] == Lookup(opts, "rear_shock")))
  {
    var p := New(kind, opts);
    assert "chain" !in p.LocalSpares() && "tire_size" !in p.LocalSpares();
  }

  /** `Bicycle` with inherited parts. */
  datatype Bicycle = Bicycle(size: Value, parts: Parts) {

    /** `spares`: delegated to the parts. */
    function Spares(): (m: Hash)
      ensures m == parts.Spares()
      ensures {"chain", "tire_size"} <= m.Keys
    {
      parts.Spares()
    }
  }

  /** The road bike of the inheritance demo: only `tape_color` is given, so
      chain and tire size are nil. */
  lemma RoadBikeSpares()
    ensures Bicycle(Str("L"), New(RoadBikeParts, map["tape_color" := Str("red")])).Spares()
      == map["chain" := Nil, "tire_size" := Nil, "tape_color" := Str("red")]
  {
  }

  /** The mountain bike of the inheritance demo. */
  lemma MountainBikeSpares()
    ensures Bicycle(Str("L"), New(MountainBikeParts,
                                  map["front_shock" := Str("Manitou"), "rear_shock" := Str("Fox")])).Spares()
      == map["chain" := Nil, "tire_size" := Nil, "front_shock" := Str("Manitou"), "rear_shock" := Str("Fox")]
  {
  }
}
