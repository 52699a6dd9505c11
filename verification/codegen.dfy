/** The pure helpers of the block and biome code generator,
    `codegen/src/main.rs`: the `pascal_case` name mangling, the `minecraft:`
    prefix strip, the choice of a block's default state, one block's
    registry entry, and the sorted, deduplicated biome variants.  Reading
    the JSON files and writing the generated Rust are left out; a JSON
    value the generator unwraps is modelled by whether the unwrap succeeds. */
module Codegen {
  import opened Ints
  import opened Wrappers

  // ------------------------------------------------------------ pascal_case

  /** `char::to_uppercase` on ASCII letters; any other character is kept.
      Block and biome identifiers are ASCII. */
  function ToUpper(c: char): char {
    if 'a' <= c <= 'z' then (c as int - 32) as char else c
  }

  /** Upper-casing twice is upper-casing once, and never makes or removes an
      underscore. */
  lemma {:induction false} ToUpperFacts(c: char)
    ensures ToUpper(ToUpper(c)) == ToUpper(c)
    ensures ToUpper(c) == '_' <==> c == '_'
  {
  }

  /** `str::split('_')`: the pieces between underscores, empty ones
      included, so there is always at least one. */
  function Split(s: string): (r: seq<string>)
    ensures |r| >= 1
    decreases |s|
  {
    if |s| == 0 then [""]
    else
      var t := Split(s[1..]);
      if s[0] == '_' then [""] + t else [[s[0]] + t[0]] + t[1..]
  }

  /** The pieces joined back with underscores between them. */
  function Join(ws: seq<string>): string
    requires |ws| >= 1
    decreases |ws|
  {
    if |ws| == 1 then ws[0] else ws[0] + "_" + Join(ws[1..])
  }

  /** Splitting loses nothing: joining the pieces gives the input back, and
      no piece holds an underscore. */
  lemma {:induction false} SplitJoin(s: string)
    ensures Join(Split(s)) == s
    ensures forall i :: 0 <= i < |Split(s)| ==> '_' !in Split(s)[i]
    decreases |s|
  {
    if |s| > 0 {
      var t := Split(s[1..]);
      SplitJoin(s[1..]);
      if s[0] == '_' {
        assert ([""] + t)[1..] == t;
        assert s == [s[0]] + s[1..];
      } else {
        var u := [[s[0]] + t[0]] + t[1..];
        assert u[1..] == t[1..];
        if |t| == 1 {
          assert s == [s[0]] + s[1..];
        } else {
          assert Join(t) == t[0] + "_" + Join(t[1..]);
          assert Join(u) == ([s[0]] + t[0]) + "_" + Join(t[1..]);
          assert s == [s[0]] + s[1..];
        }
        forall i | 0 <= i < |u|
          ensures '_' !in u[i]
        {
          if i > 0 {
            assert u[i] == t[i];
          }
        }
      }
    }
  }

  /** One piece: its first character upper-cased, the rest unchanged; an
      empty piece stays empty. */
  function Capitalize(w: string): string {
    if |w| == 0 then "" else [ToUpper(w[0])] + w[1..]
  }

  /** Every piece capitalized, in order. */
  function CapitalizeAll(ws: seq<string>): seq<string>
    decreases |ws|
  {
    if |ws| == 0 then [] else [Capitalize(ws[0])] + CapitalizeAll(ws[1..])
  }

  /** The pieces concatenated, in order. */
  function Concat(ws: seq<string>): string
    decreases |ws|
  {
    if |ws| == 0 then "" else ws[0] + Concat(ws[1..])
  }

  /** `pascal_case`: split at underscores, capitalize each piece, and
      concatenate.  The result is what the one-pass scanner gives from a
      word start: the underscores dropped and every other character kept. */
  function PascalCase(s: string): (r: string)
    ensures r == Scan(s, true)
    ensures '_' !in r
    ensures |r| == |s| - Underscores(s)
  {
    ScanSplits(s, true);
    var t := Split(s);
    assert CapitalizeAll(t) == [Capitalize(t[0])] + CapitalizeAll(t[1..]);
    ScanShape(s, true);
    Concat(CapitalizeAll(t))
  }

  /** A reference definition that walks the characters once: an underscore
      is dropped and makes the next character a word start, and a word
      start is upper-cased. */
  function Scan(s: string, atStart: bool): string
    decreases |s|
  {
    if |s| == 0 then ""
    else if s[0] == '_' then Scan(s[1..], true)
    else [if atStart then ToUpper(s[0]) else s[0]] + Scan(s[1..], false)
  }

  /** Scanning is splitting, then capitalizing every piece but the first
      and that one too at a word start. */
  lemma {:induction false} ScanSplits(s: string, atStart: bool)
    ensures var t := Split(s);
            Scan(s, atStart) == (if atStart then Capitalize(t[0]) else t[0]) + Concat(CapitalizeAll(t[1..]))
    decreases |s|
  {
    if |s| > 0 {
      var t := Split(s[1..]);
      if s[0] == '_' {
        ScanSplits(s[1..], true);
        assert ([""] + t)[1..] == t;
        assert CapitalizeAll(t) == [Capitalize(t[0])] + CapitalizeAll(t[1..]);
      } else {
        ScanSplits(s[1..], false);
        var u := [[s[0]] + t[0]] + t[1..];
        assert u[1..] == t[1..];
        var first := if atStart then ToUpper(s[0]) else s[0];
        var c := [s[0]] + t[0];
        assert c[0] == s[0] && c[1..] == t[0];
        assert (if atStart then Capitalize(c) else c) == [first] + t[0];
      }
    }
  }

  /** The number of underscores in a string. */
  function Underscores(s: string): nat
    decreases |s|
  {
    if |s| == 0 then 0 else (if s[0] == '_' then 1 else 0) + Underscores(s[1..])
  }

  /** The scanner drops exactly the underscores and keeps one character for
      every other one. */
  lemma {:induction false} ScanShape(s: string, atStart: bool)
    ensures '_' !in Scan(s, atStart)
    ensures |Scan(s, atStart)| == |s| - Underscores(s)
    decreases |s|
  {
    if |s| > 0 {
      if s[0] == '_' {
        ScanShape(s[1..], true);
      } else {
        ScanShape(s[1..], false);
        ToUpperFacts(s[0]);
      }
    }
  }

  /** On a string without underscores the scanner only upper-cases the first
      character, at a word start. */
  lemma {:induction false} ScanOneWord(s: string, atStart: bool)
    requires '_' !in s
    ensures Scan(s, atStart) == if atStart then Capitalize(s) else s
    decreases |s|
  {
    if |s| > 0 {
      assert s[0] != '_';
      assert s == [s[0]] + s[1..];
      assert '_' !in s[1..];
      ScanOneWord(s[1..], false);
    }
  }

  /** What the scanner emits first at a word start is already upper case. */
  lemma {:induction false} ScanHeadIsUpper(s: string)
    ensures var p := Scan(s, true); |p| > 0 ==> ToUpper(p[0]) == p[0]
    decreases |s|
  {
    if |s| > 0 {
      if s[0] == '_' {
        ScanHeadIsUpper(s[1..]);
      } else {
        ToUpperFacts(s[0]);
      }
    }
  }

  /** `pascal_case` is idempotent. */
  lemma {:induction false} PascalCaseIdempotent(s: string)
    ensures PascalCase(PascalCase(s)) == PascalCase(s)
  {
    var p := PascalCase(s);
    ScanShape(s, true);
    ScanOneWord(p, true);
    ScanHeadIsUpper(s);
    if |p| > 0 {
      assert p == [p[0]] + p[1..];
    }
  }

  /** Crossing an underscore restarts a word. */
  lemma {:induction false} ScanAcrossUnderscore(a: string, b: string, atStart: bool)
    ensures Scan(a + ("_" + b), atStart) == Scan(a, atStart) + Scan(b, true)
    decreases |a|
  {
    if |a| == 0 {
      assert a + ("_" + b) == "_" + b;
      assert ("_" + b)[1..] == b;
    } else {
      assert (a + ("_" + b))[0] == a[0];
      assert (a + ("_" + b))[1..] == a[1..] + ("_" + b);
      ScanAcrossUnderscore(a[1..], b, if a[0] == '_' then true else false);
    }
  }

  /** The pieces on either side of an underscore are converted on their own
      and concatenated in order, and a single piece is capitalized. */
  lemma {:induction false} PascalCasePieces(a: string, b: string)
    ensures PascalCase(a + "_" + b) == PascalCase(a) + PascalCase(b)
    ensures '_' !in a ==> PascalCase(a) == Capitalize(a)
  {
    assert a + "_" + b == a + ("_" + b);
    ScanAcrossUnderscore(a, b, true);
    if '_' !in a {
      ScanOneWord(a, true);
    }
  }

  // ------------------------------------------------------------- enum names

  /** The namespace every generated identifier carries. */
  const NAMESPACE: string := "minecraft:"

  /** Whether `p` starts `s`. */
  predicate HasPrefix(s: string, p: string) {
    |p| <= |s| && s[..|p|] == p
  }

  /** The enum variant of a block or biome name: `pascal_case` of the name
      after its `minecraft:` prefix; a name without that prefix unwraps
      `None` and aborts the generator. */
  function EnumName(name: string): (r: Result<string>)
    ensures r.Ok? <==> HasPrefix(name, NAMESPACE)
    ensures r.Err? ==> r == Err(Panic(UnwrapOnError))
    ensures r.Ok? ==> '_' !in r.value
  {
    if HasPrefix(name, NAMESPACE) then
      Ok(PascalCase(name[|NAMESPACE|..]))
    else Err(Panic(UnwrapOnError))
  }

  /** A namespaced identifier gets the variant of its path. */
  lemma {:induction false} EnumNameOfIdentifier(path: string)
    ensures EnumName(NAMESPACE + path) == Ok(PascalCase(path))
  {
    var n := NAMESPACE + path;
    assert n[..|NAMESPACE|] == NAMESPACE;
    assert n[|NAMESPACE|..] == path;
  }

  // ---------------------------------------------------------- default state

  /** The `"default"` member of a state object: absent, a boolean, or a value
      of another JSON type. */
  datatype Flag = Absent | Flagged(b: bool) | NotBool

  /** One element of a block's `"states"` array: its `"id"` when that is a
      `u64`, whether every `"properties"` value is a string, and its
      `"default"` member. */
  datatype StateJson = StateJson(id: Option<u64>, propertiesAreStrings: bool, default: Flag)

  /** Whether the generator reads a state without an unwrap failing. */
  predicate Readable(e: StateJson) {
    e.id.Some? && e.propertiesAreStrings && !e.default.NotBool?
  }

  /** Whether a state is flagged as the default one. */
  predicate IsDefault(e: StateJson) {
    e.default == Flagged(true)
  }

  /** The position of the last state flagged default, searching from the
      back. */
  function LastFlagged(states: seq<StateJson>): (r: Option<nat>)
    ensures r.Some? ==> r.value < |states|
    decreases |states|
  {
    if |states| == 0 then None
    else if IsDefault(states[|states| - 1]) then Some(|states| - 1)
    else LastFlagged(states[..|states| - 1])
  }

  /** `LastFlagged` finds a flagged state with none flagged after it, and
      nothing exactly when none is flagged. */
  lemma {:induction false} LastFlaggedSpec(states: seq<StateJson>)
    ensures LastFlagged(states).None? <==> forall i :: 0 <= i < |states| ==> !IsDefault(states[i])
    ensures LastFlagged(states).Some? ==>
              var k := LastFlagged(states).value;
              IsDefault(states[k]) && forall j :: k < j < |states| ==> !IsDefault(states[j])
    decreases |states|
  {
    if |states| > 0 {
      var n := |states| - 1;
      LastFlaggedSpec(states[..n]);
      assert forall i :: 0 <= i < n ==> states[..n][i] == states[i];
    }
  }

  /** The default state id the generator emits, as a reference: an
      unreadable state aborts; an empty state list aborts on `states[0]`,
      which is evaluated even when a state is flagged; otherwise the last
      flagged state's id, or the first state's. */
  function ChosenDefault(states: seq<StateJson>): (r: Result<u64>)
    ensures r.Ok? <==> |states| > 0 && forall i :: 0 <= i < |states| ==> Readable(states[i])
  {
    if exists i :: 0 <= i < |states| && !Readable(states[i]) then Err(Panic(UnwrapOnError))
    else if |states| == 0 then Err(Panic(IndexOutOfBounds))
    else
      match LastFlagged(states)
      case Some(k) => Ok(states[k].id.value)
      case None => Ok(states[0].id.value)
  }

  /** The generator's loop over a block's states: each state's id, its
      properties and its `"default"` member are unwrapped in that order, a
      flagged state replaces the default so far, and the first state's id
      is the fallback. */
  method DefaultState(states: seq<StateJson>) returns (r: Result<u64>)
    ensures r == ChosenDefault(states)
  {
    var current: Option<u64> := None;
    for i := 0 to |states|
      invariant forall j :: 0 <= j < i ==> Readable(states[j])
      invariant current == match LastFlagged(states[..i]) case Some(k) => Some(states[k].id.value) case None => None
    {
      var e := states[i];
      if e.id.None? || !e.propertiesAreStrings || e.default.NotBool? {
        return Err(Panic(UnwrapOnError));
      }
      assert states[..i + 1][..i] == states[..i];
      if e.default.Flagged? && e.default.b {
        current := Some(e.id.value);
      }
    }
    assert states[..|states|] == states;
    if |states| == 0 {
      return Err(Panic(IndexOutOfBounds));
    }
    r := Ok(current.GetOr(states[0].id.value));
  }

  /** The chosen default is a flagged state's id with no flagged state
      after it, or the first state's id when none is flagged. */
  lemma {:induction false} DefaultIsLastFlagged(states: seq<StateJson>)
    requires ChosenDefault(states).Ok?
    ensures var id := ChosenDefault(states).value;
            (exists k :: 0 <= k < |states| && IsDefault(states[k]) && states[k].id == Some(id) &&
                         forall j :: k < j < |states| ==> !IsDefault(states[j])) ||
            ((forall j :: 0 <= j < |states| ==> !IsDefault(states[j])) && states[0].id == Some(id))
  {
    LastFlaggedSpec(states);
  }

  // ---------------------------------------------------------- block entries

  /** A block of `blocks.json`: its name and its states. */
  datatype BlockJson = BlockJson(name: string, states: seq<StateJson>)

  /** One arm of the generated `get_block_registry_entry`. */
  datatype RegistryEntry = RegistryEntry(variant: string, name: string, defaultState: u64, protocolId: u64)

  /** The registry entry of one block: the enum name is derived first, then
      the states are read, then the protocol id is looked up in
      `registries.json`, where a missing block aborts. */
  function BlockEntry(b: BlockJson, protocolIds: map<string, u64>): (r: Result<RegistryEntry>)
    ensures r.Ok? <==> EnumName(b.name).Ok? && ChosenDefault(b.states).Ok? && b.name in protocolIds
    ensures r.Ok? ==> r.value.name == b.name && r.value.variant == EnumName(b.name).value
    ensures r.Ok? ==> r.value.defaultState == ChosenDefault(b.states).value && r.value.protocolId == protocolIds[b.name]
  {
    var variant :- EnumName(b.name);
    var default :- ChosenDefault(b.states);
    if b.name !in protocolIds then Err(Panic(UnwrapOnError))
    else Ok(RegistryEntry(variant, b.name, default, protocolIds[b.name]))
  }

  // ---------------------------------------------------------------- biomes

  /** `Ord for String`: lexicographic on characters.  Comparing UTF-8 bytes,
      as Rust does, orders strings the same way as comparing code points. */
  predicate Below(a: string, b: string)
    decreases |a|
  {
    |b| > 0 && (|a| == 0 || a[0] < b[0] || (a[0] == b[0] && Below(a[1..], b[1..])))
  }

  /** `Below` is a strict total order. */
  lemma {:induction false} BelowIsStrictTotal(a: string, b: string, c: string)
    ensures !Below(a, a)
    ensures Below(a, b) ==> !Below(b, a)
    ensures a != b ==> Below(a, b) || Below(b, a)
    ensures Below(a, b) && Below(b, c) ==> Below(a, c)
    decreases |a|
  {
    if |a| > 0 && |b| > 0 && |c| > 0 {
      BelowIsStrictTotal(a[1..], b[1..], c[1..]);
      if a != b && a[0] == b[0] {
        assert a == [a[0]] + a[1..] && b == [b[0]] + b[1..];
      }
    } else if |a| > 0 && |b| > 0 {
      BelowIsStrictTotal(a[1..], b[1..], b[1..]);
      if a != b && a[0] == b[0] {
        assert a == [a[0]] + a[1..] && b == [b[0]] + b[1..];
      }
    } else if |a| > 0 {
      BelowIsStrictTotal(a[1..], a[1..], a[1..]);
    }
  }

  /** Strictly increasing: sorted and without duplicates. */
  predicate StrictlySorted(xs: seq<string>) {
    forall i, j :: 0 <= i < j < |xs| ==> Below(xs[i], xs[j])
  }

  /** A name placed in a strictly sorted list, unless it is there already. */
  function Insert(xs: seq<string>, x: string): seq<string>
    decreases |xs|
  {
    if |xs| == 0 then [x]
    else if x == xs[0] then xs
    else if Below(x, xs[0]) then [x] + xs
    else [xs[0]] + Insert(xs[1..], x)
  }

  /** Inserting keeps the list strictly sorted and adds exactly the name. */
  lemma {:induction false} InsertSpec(xs: seq<string>, x: string)
    requires StrictlySorted(xs)
    ensures StrictlySorted(Insert(xs, x))
    ensures forall y :: y in Insert(xs, x) <==> y in xs || y == x
    decreases |xs|
  {
    if |xs| > 0 && x != xs[0] {
      var h := xs[0];
      if Below(x, h) {
        var r := [x] + xs;
        forall i, j | 0 <= i < j < |r|
          ensures Below(r[i], r[j])
        {
          if i == 0 && j > 1 {
            BelowIsStrictTotal(x, h, xs[j - 1]);
          }
        }
      } else {
        BelowIsStrictTotal(x, h, h);
        var t := xs[1..];
        assert StrictlySorted(t) by {
          forall i, j | 0 <= i < j < |t|
            ensures Below(t[i], t[j])
          {
            assert t[i] == xs[i + 1] && t[j] == xs[j + 1];
          }
        }
        InsertSpec(t, x);
        var it := Insert(t, x);
        var r := [h] + it;
        assert xs == [h] + t;
        forall i, j | 0 <= i < j < |r|
          ensures Below(r[i], r[j])
        {
          if i == 0 {
            assert r[j] in it;
            if r[j] != x {
              assert r[j] in t;
              var k :| 0 <= k < |t| && t[k] == r[j];
              assert xs[k + 1] == r[j];
            }
          } else {
            assert r[i] == it[i - 1] && r[j] == it[j - 1];
          }
        }
      }
    }
  }

  /** The distinct names of a list, sorted: what iterating the `HashSet` of
      biome names through `sorted()` yields. */
  function SortedSet(names: seq<string>): seq<string>
    decreases |names|
  {
    if |names| == 0 then [] else Insert(SortedSet(names[..|names| - 1]), names[|names| - 1])
  }

  /** `SortedSet` is strictly sorted and holds exactly the names given. */
  lemma {:induction false} SortedSetSpec(names: seq<string>)
    ensures StrictlySorted(SortedSet(names))
    ensures forall y :: y in SortedSet(names) <==> y in names
    decreases |names|
  {
    if |names| > 0 {
      var n := |names| - 1;
      SortedSetSpec(names[..n]);
      InsertSpec(SortedSet(names[..n]), names[n]);
      assert names == names[..n] + [names[n]];
    }
  }

  /** Two strictly sorted lists with the same elements are the same list. */
  lemma {:induction false} SortedUnique(xs: seq<string>, ys: seq<string>)
    requires StrictlySorted(xs) && StrictlySorted(ys)
    requires forall y :: y in xs <==> y in ys
    ensures xs == ys
    decreases |xs|
  {
    if |xs| > 0 {
      assert xs[0] in ys;
    }
    if |ys| > 0 {
      assert ys[0] in xs;
    }
    if |xs| > 0 && |ys| > 0 {
      var a, b := xs[0], ys[0];
      assert a in ys;
      assert b in xs;
      var i :| 0 <= i < |ys| && ys[i] == a;
      var j :| 0 <= j < |xs| && xs[j] == b;
      if a != b {
        assert i > 0 && j > 0;
        assert Below(b, a) && Below(a, b);
        BelowIsStrictTotal(a, b, a);
      }
      var xt, yt := xs[1..], ys[1..];
      forall y
        ensures y in xt <==> y in yt
      {
        if y in xt {
          var k :| 0 <= k < |xt| && xt[k] == y;
          assert Below(a, y) by { assert xs[k + 1] == y; }
          BelowIsStrictTotal(a, y, y);
          assert y in ys;
        }
        if y in yt {
          var k :| 0 <= k < |yt| && yt[k] == y;
          assert Below(b, y) by { assert ys[k + 1] == y; }
          BelowIsStrictTotal(b, y, y);
          assert y in xs;
        }
      }
      assert StrictlySorted(xt) by {
        forall p, q | 0 <= p < q < |xt|
          ensures Below(xt[p], xt[q])
        {
          assert xt[p] == xs[p + 1] && xt[q] == xs[q + 1];
        }
      }
      assert StrictlySorted(yt) by {
        forall p, q | 0 <= p < q < |yt|
          ensures Below(yt[p], yt[q])
        {
          assert yt[p] == ys[p + 1] && yt[q] == ys[q + 1];
        }
      }
      SortedUnique(xt, yt);
      assert xs == [a] + xt && ys == [b] + yt;
    }
  }

  /** The biome variants depend only on which names occur: neither on the
      order the files and entries are read in, nor on repetitions. */
  lemma {:induction false} SortedSetIgnoresOrder(a: seq<string>, b: seq<string>)
    requires forall y :: y in a <==> y in b
    ensures SortedSet(a) == SortedSet(b)
  {
    SortedSetSpec(a);
    SortedSetSpec(b);
    SortedUnique(SortedSet(a), SortedSet(b));
  }

  /** The enum names of a list of names, in order; the first name without
      the prefix aborts. */
  function EnumNames(names: seq<string>): (r: Result<seq<string>>)
    ensures r.Ok? <==> forall i :: 0 <= i < |names| ==> HasPrefix(names[i], NAMESPACE)
    ensures r.Ok? ==> |r.value| == |names| && forall i :: 0 <= i < |names| ==> Ok(r.value[i]) == EnumName(names[i])
    decreases |names|
  {
    if |names| == 0 then Ok([])
    else
      var first :- EnumName(names[0]);
      var rest :- EnumNames(names[1..]);
      assert forall i :: 1 <= i < |names| ==> names[i] == names[1..][i - 1];
      Ok([first] + rest)
  }

  /** The variants of the generated `Biome` enum: every biome entry's name
      is stripped as it is read, so one without the prefix aborts; otherwise
      the distinct names in sorted order, each converted. */
  function BiomeVariants(names: seq<string>): (r: Result<seq<string>>)
    ensures r.Ok? <==> forall i :: 0 <= i < |names| ==> HasPrefix(names[i], NAMESPACE)
    ensures r.Err? ==> r == Err(Panic(UnwrapOnError))
  {
    SortedSetSpec(names);
    if exists i :: 0 <= i < |names| && !HasPrefix(names[i], NAMESPACE) then Err(Panic(UnwrapOnError))
    else
      var sorted := SortedSet(names);
      assert forall i :: 0 <= i < |sorted| ==> sorted[i] in names;
      EnumNames(sorted)
  }

  /** The variants are the converted distinct names in strictly increasing
      name order. */
  lemma {:induction false} BiomeVariantsSorted(names: seq<string>)
    requires BiomeVariants(names).Ok?
    ensures var vs := BiomeVariants(names).value;
            exists sorted: seq<string> ::
              StrictlySorted(sorted) && (forall y :: y in sorted <==> y in names) && |vs| == |sorted| &&
              forall i :: 0 <= i < |sorted| ==> Ok(vs[i]) == EnumName(sorted[i])
  {
    SortedSetSpec(names);
    var sorted := SortedSet(names);
    assert StrictlySorted(sorted) && (forall y :: y in sorted <==> y in names);
  }
}
