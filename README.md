# POODR bicycle examples, modelled in Dafny

A model of the parts of `poodr_code_notes.rb` that compute values rather than
print them. The file transcribes examples from *Practical Object-Oriented
Design in Ruby*. Three pieces are modelled:

- **`RevealingReferences`** (module `RevealingReferences`, `revealing_references.dfy`).
  The object wraps raw `[rim, tire]` cells in `Wheel` structs once, when it is
  built. `diameters` then maps each wheel to `rim + tire * 2`. A cell that is
  too short leaves nil in the struct, and `diameters` then raises
  `NoMethodError` at the first such wheel. The model keeps that error path.
- **Inheritance bicycles** (module `InheritanceBikes`, `inheritance_bikes.dfy`).
  `Parts.new(**opts)` copies `chain` and `tire_size` from the keyword options.
  `RoadBikeParts` also stores `tape_color`, and `MountainBikeParts` stores
  `front_shock` and `rear_shock`. `spares` merges the subclass's
  `local_spares` hash into `{chain:, tire_size:}`. A missing option is nil: the
  `default_chain`/`default_tire_size` methods are never consulted.
- **Composition bicycles** (module `CompositionBikes`, `composition_bikes.dfy`).
  `PartsFactory.build` turns positional tuples into `Part` records. The third
  field defaults to `true` only when the tuple has no third element. `Parts`
  wraps the ordered parts. `spares` selects the parts whose `needs_spare` is
  truthy. `Bicycle#spares` and `Bicycle#local_spares` delegate to it.

Module `RubyValues` (`ruby_values.dfy`) holds the Ruby notions these rely on:
- the values in the configuration data (nil, booleans, strings, integers);
- truthiness (everything but nil and false);
- `Array#[]` returning nil past the end, and `Array#fetch` with a default;
- the two exceptions that can arise.

Everything is pure: each Ruby object is assigned once in its constructor and
never mutated, so objects are datatypes and methods are functions. Calling
`spares` twice therefore gives equal results by construction.

## Model

| member | source | states |
|---|---|---|
| `RevealingReferences.Wheelify` | poodr_code_notes.rb:59-61 | one wheel per cell, in order; a cell with two or more elements gives `Wheel(cell[0], cell[1])`, a one-element cell gives `Wheel(cell[0], nil)`; rim is nil exactly for an empty cell, tire exactly for a cell shorter than two |
| `RevealingReferences.Diameter` | poodr_code_notes.rb:51-53 | a complete wheel's diameter is `rim + 2 * tire`; a nil tire raises `NoMethodError` for `*` (the argument is evaluated first), otherwise a nil rim raises it for `+` |
| `RevealingReferences.DiametersOf` | poodr_code_notes.rb:47-53 | `diameters` succeeds exactly when every wheel has rim and tire; then it has one entry per wheel, the i-th being `rim_i + 2 * tire_i` |
| `RevealingReferences.DiametersFailsAtFirstIncomplete` | poodr_code_notes.rb:47-53 | when `diameters` raises, the first wheel missing a field is found, all earlier wheels being complete, and the exception is `NoMethodError` for `*` if its tire is nil and for `+` otherwise |
| `RevealingReferences.DiametersOfData` | poodr_code_notes.rb:42-61 | from raw data: the diameters exist iff every cell has at least two elements, and then element i is `data[i][0] + 2 * data[i][1]` and the lengths agree |
| `CompositionBikes.CreatePart` | poodr_code_notes.rb:238-243 | name is `tuple[0]`, description `tuple[1]` (nil if missing); needs_spare is `tuple[2]` when the tuple has a third element (even false or nil) and `true` otherwise |
| `CompositionBikes.CreateParts` | poodr_code_notes.rb:233-234 | the collected parts have one entry per tuple, the i-th built from the i-th tuple |
| `CompositionBikes.Build` | poodr_code_notes.rb:231-235 | the built collection's size equals the number of tuples and its i-th part is built from the i-th tuple |
| `CompositionBikes.SelectSpares` | poodr_code_notes.rb:222-225 | the selection is no longer than the parts and every selected part needs a spare |
| `CompositionBikes.Parts.Spares` | poodr_code_notes.rb:222-225 | `spares` returns at most `size` parts, each of which needs a spare |
| `CompositionBikes.SparesSelectsInOrder` | poodr_code_notes.rb:222-225 | `spares` is taken from strictly increasing positions of the parts, and those positions are exactly the ones whose part has a truthy needs_spare (an order-preserving, exact filter) |
| `CompositionBikes.SparesUnique` | poodr_code_notes.rb:222-225 | conversely, any sequence taken in order from exactly those positions equals `spares`, so the filter is fully characterised |
| `CompositionBikes.SparesIdempotent` | poodr_code_notes.rb:218-225 | selecting spares from the spares changes nothing |
| `CompositionBikes.Bicycle.Spares` | poodr_code_notes.rb:105-107 | a bicycle's spares are its parts' spares for any collection: at most `size` of them, all needing a spare |
| `CompositionBikes.Bicycle.LocalSpares` | poodr_code_notes.rb:205-207 | `local_spares` of the reopened class gives the same parts as `spares` |
| `CompositionBikes.BuiltBicycleSpares` | poodr_code_notes.rb:231-243 | for a bicycle built from any configuration, the spares are the parts built from tuples with no third element or a truthy one, in configuration order |
| `CompositionBikes.RoadBikeSpares` | poodr_code_notes.rb:246-259 | the road configuration yields all three parts as spares |
| `CompositionBikes.MountainBikeSpares` | poodr_code_notes.rb:251-262 | the mountain configuration yields chain, tire_size and front_shock and leaves out rear_shock, configured with `false` |
| `InheritanceBikes.Merge` | poodr_code_notes.rb:120-123 | `Hash#merge`: the keys of both hashes, the right-hand value winning on a clash, the left-hand value kept otherwise |
| `InheritanceBikes.Parts.LocalSpares` | poodr_code_notes.rb:134-172 | the base class contributes no key; road parts exactly `tape_color`; mountain parts exactly `front_shock` and `rear_shock`, with the stored values |
| `InheritanceBikes.Parts.Spares` | poodr_code_notes.rb:120-123 | the keys are `{chain, tire_size}` plus the local keys, local values taking precedence, chain and tire size otherwise |
| `InheritanceBikes.New` | poodr_code_notes.rb:114-167 | chain and tire size are the given options verbatim, nil when absent; each class stores exactly its own extra options |
| `InheritanceBikes.NewAsWritten` | poodr_code_notes.rb:114-132 | construction fails exactly for the base class with no options; otherwise it agrees with `New` |
| `InheritanceBikes.BaseWithoutOptionsRaises` | poodr_code_notes.rb:117-132 | `Parts.new` with no options raises `ArgumentError` (0 arguments given, 1 expected) |
| `InheritanceBikes.SparesByKind` | poodr_code_notes.rb:111-178 | per class, the exact key set of `spares` and each value being the option passed to `new`, or nil |
| `InheritanceBikes.Bicycle.Spares` | poodr_code_notes.rb:105-107 | a bicycle's spares are its parts' spares, always with `chain` and `tire_size` keys |
| `InheritanceBikes.RoadBikeSpares` | poodr_code_notes.rb:181-183 | the road bike's spares are `{chain: nil, tire_size: nil, tape_color: "red"}` |
| `InheritanceBikes.MountainBikeSpares` | poodr_code_notes.rb:186-188 | the mountain bike's spares are `{chain: nil, tire_size: nil, front_shock: "Manitou", rear_shock: "Fox"}` |

## Left out

- `Gear#ratio` (lines 10-12): floating-point division.
- `Customer#greeting` (lines 18-20): string interpolation only.
- `ConstantTest`, `SelfTester`, `Foo`, and `Mobility`/`Animal`/`Bear`/`Crab`
  (lines 24-36, 65-88, 281-311): they only print or show language features.
- All console output (`puts`, `print`).
- `default_chain`, `default_tire_size` and the `NotImplementedError` of the
  base `default_tire_size` (lines 126-140, 155-157, 174-176): no path that
  builds parts or computes spares calls them.
- Ruby hashes keep insertion order. `InheritanceBikes` uses a `map`, so key
  order and the printed form of `spares` are not modelled.
- `Forwardable`, `Enumerable` and `each` (lines 211-215): `Parts` holds a
  plain sequence. `size` is its length, and `select` is the recursive filter.
- `OpenStruct` (line 239): a `Part` is a fixed three-field record.
- The `parts_class:` parameter of `PartsFactory.build` (line 231): only the
  default `Parts` class is modelled.
- Class reopening: the second `class Parts` replaces the first one's
  `initialize` and `spares` for all later code. The two versions are separate
  modules here, each matching the demo that runs while it is in force.
  `Bicycle` is one reopened class. It is modelled once per version, and in
  both its `spares` delegates to the parts.
- Values are nil, booleans, strings and integers. Wheel cells hold integers
  only: Ruby's duck typing would also accept floats, or strings with `*`
  and `+`.
- Array indices are non-negative: the code only reads indices 0, 1 and 2.
- Malformed tuples: the code does not validate them. A short tuple yields
  nil fields, and the model does the same. It does not fail fast with an
  error.

## Findings

| source | as written | input that shows it | evidently intended | confidence | as-written member | corrected member |
|---|---|---|---|---|---|---|
| poodr_code_notes.rb:117-132 | the base `post_initialize(opts)` takes one positional parameter, but `initialize` calls it with `**opts` | `Parts.new` with no options: under Ruby 3.0 and later, `**{}` passes no argument, so `ArgumentError` is raised (0 given, 1 expected) | the base hook ignores its options and construction always succeeds, with nil chain and tire size | medium; not executed (depends on the Ruby version's keyword-splat rules) | `InheritanceBikes.NewAsWritten`, `InheritanceBikes.BaseWithoutOptionsRaises` | `InheritanceBikes.New` |
