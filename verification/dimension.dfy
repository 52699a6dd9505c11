/** Dimension types and their registry, `rustmine_lib/src/dimension.rs`.
    The floating-point fields are carried as raw IEEE-754 bit patterns and
    never computed with; the registry's lock is left out. */
module Dimension {
  import opened Ints
  import W = Wrappers

  /** An `f32` or `f64`, by its bits. */
  datatype Float = Float(bits: nat)

  datatype DimensionType = DimensionType(
    piglinSafe: bool,
    natural: bool,
    ambientLight: Float,
    fixedTime: W.Option<u64>,
    infiniburn: string,
    respawnAnchorWorks: bool,
    bedWorks: bool,
    effects: string,
    hasSkylight: bool,
    hasCeiling: bool,
    ultrawarm: bool,
    hasRaids: bool,
    logicalHeight: i32,
    coordinateScale: Float,
    minY: i32,
    height: i32,
    monsterSpawnLightLevel: W.Option<byte>,
    monsterSpawnBlockLightLimit: byte)

  /** The messages `validate` (the first three) and `register` (the last)
      fail with. */
  datatype DimensionError =
    | MinYNotAligned
    | HeightNotAligned
    | LogicalHeightOutOfRange
    | AlreadyRegistered(key: string)

  /** `Result<T, String>` with the message as a `DimensionError`. */
  datatype Outcome<+T> = Ok(value: T) | Err(error: DimensionError) {
    predicate IsFailure() {
      Err?
    }

    function PropagateFailure<U>(): Outcome<U>
      requires Err?
    {
      Err(error)
    }

    function Extract(): T
      requires Ok?
    {
      value
    }
  }

  /** `v % 16 == 0` on an `i32`.  Rust's `%` truncates and Dafny's is
      Euclidean, but the two agree on whether the remainder is zero. */
  predicate Aligned(v: i32) {
    v % 16 == 0
  }

  /** `DimensionType::validate`: the three checks, in order; the first that
      fails is reported. */
  function Validate(d: DimensionType): (r: Outcome<()>)
    ensures r.Ok? <==> Aligned(d.minY) && Aligned(d.height) && 0 <= d.logicalHeight <= d.height
    ensures !Aligned(d.minY) ==> r == Err(MinYNotAligned)
    ensures Aligned(d.minY) && !Aligned(d.height) ==> r == Err(HeightNotAligned)
    ensures Aligned(d.minY) && Aligned(d.height) && !(0 <= d.logicalHeight <= d.height) ==>
              r == Err(LogicalHeightOutOfRange)
  {
    if !Aligned(d.minY) then Err(MinYNotAligned)
    else if !Aligned(d.height) then Err(HeightNotAligned)
    else if d.logicalHeight > d.height || d.logicalHeight < 0 then Err(LogicalHeightOutOfRange)
    else Ok(())
  }

  /** The registered types of a `DimensionTypeManager`, by key. */
  type Registry = map<string, DimensionType>

  /** `DimensionTypeManager::register`: validate, refuse a key already
      taken, then insert. */
  function Register(m: Registry, key: string, d: DimensionType): (r: Outcome<Registry>)
    ensures Validate(d).Err? ==> r == Err(Validate(d).error)
    ensures Validate(d).Ok? && key in m ==> r == Err(AlreadyRegistered(key))
    ensures r.Ok? <==> Validate(d).Ok? && key !in m
  {
    if Validate(d).Err? then Err(Validate(d).error)
    else if key in m then Err(AlreadyRegistered(key))
    else Ok(m[key := d])
  }

  /** `DimensionTypeManager::get`. */
  function Get(m: Registry, key: string): (r: W.Option<DimensionType>)
    ensures r.Some? <==> key in m
    ensures r.Some? ==> r.value == m[key]
  {
    if key in m then W.Some(m[key]) else W.None
  }

  /** After a successful registration the key answers the new type and every
      other key answers what it did; a failed one never overwrites. */
  lemma {:induction false} RegisterThenGet(m: Registry, key: string, d: DimensionType, other: string)
    ensures Register(m, key, d).Ok? ==> Get(Register(m, key, d).value, key) == W.Some(d)
    ensures Register(m, key, d).Ok? && other != key ==> Get(Register(m, key, d).value, other) == Get(m, other)
    ensures key in m ==> Register(m, key, d).Err? && Get(m, key) == W.Some(m[key])
  {
  }

  // ----------------------------------------------------------- defaults

  const OVERWORLD_KEY: string := "minecraft:overworld"
  const NETHER_KEY: string := "minecraft:the_nether"
  const END_KEY: string := "minecraft:the_end"

  /** The overworld of `register_default_dimension_types!`. */
  function Overworld(): (d: DimensionType)
    ensures d.minY == -64 && d.height == 384 && d.logicalHeight == 384
  {
    DimensionType(false, true, Float(0), W.None, "#minecraft:infiniburn_overworld", false, true,
                  "minecraft:overworld", true, false, false, true, 384, Float(0x3FF0_0000_0000_0000), -64, 384,
                  W.Some(7), 0)
  }

  /** The nether of `register_default_dimension_types!`. */
  function Nether(): (d: DimensionType)
    ensures d.minY == 0 && d.height == 128 && d.logicalHeight == 128
  {
    DimensionType(true, false, Float(0x3DCC_CCCD), W.None, "#minecraft:infiniburn_nether", true, false,
                  "minecraft:the_nether", false, true, true, false, 128, Float(0x4020_0000_0000_0000), 0, 128,
                  W.Some(0), 15)
  }

  /** The end of `register_default_dimension_types!`. */
  function End(): (d: DimensionType)
    ensures d.minY == 0 && d.height == 256 && d.logicalHeight == 256 && d.fixedTime == W.Some(6000)
  {
    DimensionType(false, false, Float(0), W.Some(6000), "#minecraft:infiniburn_end", false, false,
                  "minecraft:the_end", false, true, false, true, 256, Float(0x3FF0_0000_0000_0000), 0, 256,
                  W.Some(0), 15)
  }

  /** What `register_default_dimension_types!` leaves behind: the manager
      as it stands afterwards, and whether the macro finished or panicked. */
  datatype Defaults = Defaults(registry: Registry, result: W.Result<()>)

  /** `register_default_dimension_types!`: the three registrations in order,
      each unwrapped.  The first that fails panics, and the registrations
      made before it stay in the shared manager. */
  function RegisterDefaults(m: Registry): (r: Defaults)
    ensures r.result.Ok? <==> OVERWORLD_KEY !in m && NETHER_KEY !in m && END_KEY !in m
    ensures r.result.Err? ==> r.result.error == W.Panic(W.UnwrapOnError)
    ensures r.result.Ok? ==> r.registry == m[OVERWORLD_KEY := Overworld()][NETHER_KEY := Nether()][END_KEY := End()]
    ensures OVERWORLD_KEY in m ==> r.registry == m
    ensures OVERWORLD_KEY !in m && NETHER_KEY in m ==> r.registry == m[OVERWORLD_KEY := Overworld()]
    ensures OVERWORLD_KEY !in m && NETHER_KEY !in m && END_KEY in m ==>
              r.registry == m[OVERWORLD_KEY := Overworld()][NETHER_KEY := Nether()]
    ensures forall k :: k in m ==> k in r.registry && r.registry[k] == m[k]
  {
    DefaultsValid();
    match Register(m, OVERWORLD_KEY, Overworld())
    case Err(_) => Defaults(m, W.Err(W.Panic(W.UnwrapOnError)))
    case Ok(m1) =>
      match Register(m1, NETHER_KEY, Nether())
      case Err(_) => Defaults(m1, W.Err(W.Panic(W.UnwrapOnError)))
      case Ok(m2) =>
        match Register(m2, END_KEY, End())
        case Err(_) => Defaults(m2, W.Err(W.Panic(W.UnwrapOnError)))
        case Ok(m3) => Defaults(m3, W.Ok(()))
  }

  /** The three default types pass validation. */
  lemma {:induction false} DefaultsValid()
    ensures Validate(Overworld()).Ok? && Validate(Nether()).Ok? && Validate(End()).Ok?
    ensures OVERWORLD_KEY != NETHER_KEY && NETHER_KEY != END_KEY && OVERWORLD_KEY != END_KEY
  {
    assert OVERWORLD_KEY[10] != NETHER_KEY[10];
    assert OVERWORLD_KEY[10] != END_KEY[10];
    assert NETHER_KEY[14] != END_KEY[14];
  }

  /** On an empty manager the defaults register, and each key answers its
      type. */
  lemma {:induction false} DefaultsOnEmpty()
    ensures RegisterDefaults(map[]).result.Ok?
    ensures var m := RegisterDefaults(map[]).registry;
            Get(m, OVERWORLD_KEY) == W.Some(Overworld()) && Get(m, NETHER_KEY) == W.Some(Nether()) &&
            Get(m, END_KEY) == W.Some(End())
  {
    DefaultsValid();
  }

  /** A manager holding only a nether: the overworld is inserted, then the
      nether's registration fails and the macro panics, leaving the
      overworld behind. */
  lemma {:induction false} DefaultsPanicAfterOverworld(d: DimensionType)
    ensures var r := RegisterDefaults(map[NETHER_KEY := d]);
            r.result == W.Err(W.Panic(W.UnwrapOnError)) &&
            Get(r.registry, OVERWORLD_KEY) == W.Some(Overworld()) &&
            Get(r.registry, NETHER_KEY) == W.Some(d) &&
            Get(r.registry, END_KEY) == W.None
  {
    DefaultsValid();
  }
}
