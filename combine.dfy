/** The `combine` command: previously converted recipe files are loaded as
    YAML, a null `ingredients` or `directions` is repaired to the empty
    string, and every record that still encodes is appended, in input order,
    to one list. Reading a file, the YAML parser and the YAML encoder are
    outside the model: each file arrives already loaded (or failed), and
    whether the encoder accepts a record is the parameter `dumps`. */
module Combine {
  import opened Wrappers

  /** A value of a loaded YAML document; `Binary` is a `!!binary` scalar,
      which is how a converted record stores its photo. */
  datatype Yaml =
    | Null
    | Str(s: string)
    | Int(i: int)
    | Bool(b: bool)
    | Binary(bytes: seq<bv8>)
    | Items(items: seq<Yaml>)
    | Mapping(entries: map<string, Yaml>)

  /** A recipe record: the top-level mapping of one file. */
  type Document = map<string, Yaml>

  /** One input file: reading or parsing it threw, or it parsed to a
      document (`None` for an empty one). */
  datatype Loaded = LoadError | Loaded(root: Option<Yaml>)

  datatype Source = Source(filename: string, loaded: Loaded)

  /** Why the command stops: a `try` that threw while loading a file, or the
      forced unwrap of `recipe[key]!` on a record without that key. */
  datatype Failure = Unloadable(filename: string) | MissingKey(filename: string, key: string)

  /** `if recipe[key]! is NSNull { recipe[key] = "" }` */
  function RepairField(recipe: Document, key: string): (r: Document)
    requires key in recipe
    ensures r.Keys == recipe.Keys && !r[key].Null?
    ensures !recipe[key].Null? ==> r == recipe
    ensures forall k :: k in recipe && k != key ==> r[k] == recipe[k]
  {
    if recipe[key].Null? then recipe[key := Str("")] else recipe
  }

  /** The two repairs in order, each behind its forced unwrap. */
  function Repaired(filename: string, recipe: Document): (r: Result<Document, Failure>)
    ensures r.Ok? <==> "ingredients" in recipe && "directions" in recipe
    ensures r.Err? ==> r.error == MissingKey(filename, if "ingredients" in recipe then "directions" else "ingredients")
    ensures r.Ok? ==> r.value.Keys == recipe.Keys && !r.value["ingredients"].Null? && !r.value["directions"].Null?
  {
    if "ingredients" !in recipe then Err(MissingKey(filename, "ingredients"))
    else
      var fixed := RepairField(recipe, "ingredients");
      if "directions" !in fixed then Err(MissingKey(filename, "directions"))
      else Ok(RepairField(fixed, "directions"))
  }

  /** What one file contributes: nothing when it is not a mapping or its
      repaired record does not encode, else the repaired record. */
  function Contribution(file: Source, dumps: Document -> bool): (r: Result<Option<Document>, Failure>)
    ensures r.Err? ==> r.error.filename == file.filename
    ensures file.loaded.LoadError? ==> r.Err?
    ensures r.Ok? && r.value.Some? ==> var recipe := r.value.value;
              && dumps(recipe)
              && file.loaded.Loaded? && file.loaded.root.Some? && file.loaded.root.value.Mapping?
              && Repaired(file.filename, file.loaded.root.value.entries) == Ok(recipe)
    ensures file.loaded.Loaded? && !(file.loaded.root.Some? && file.loaded.root.value.Mapping?) ==> r == Ok(None)
    ensures file.loaded.Loaded? && file.loaded.root.Some? && file.loaded.root.value.Mapping? ==>
              var repaired := Repaired(file.filename, file.loaded.root.value.entries);
              && (repaired.Err? ==> r == Err(repaired.error))
              && (repaired.Ok? && dumps(repaired.value) ==> r == Ok(Some(repaired.value)))
              && (repaired.Ok? && !dumps(repaired.value) ==> r == Ok(None))
  {
    match file.loaded
    case LoadError => Err(Unloadable(file.filename))
    case Loaded(root) =>
      if root.Some? && root.value.Mapping? then
        match Repaired(file.filename, root.value.entries)
        case Err(e) => Err(e)
        case Ok(recipe) => if dumps(recipe) then Ok(Some(recipe)) else Ok(None)
      else Ok(None)
  }

  /** The list the loop has built after the given files, or the first
      failure. */
  function KeptOf(files: seq<Source>, dumps: Document -> bool): Result<seq<Document>, Failure> {
    if files == [] then Ok([])
    else
      match KeptOf(files[..|files| - 1], dumps)
      case Err(e) => Err(e)
      case Ok(kept) =>
        match Contribution(files[|files| - 1], dumps)
        case Err(e) => Err(e)
        case Ok(None) => Ok(kept)
        case Ok(Some(recipe)) => Ok(kept + [recipe])
  }

  /** The loop of the `combine` command over its files, up to the final
      encoding of the whole list. */
  method CombineRecipes(files: seq<Source>, dumps: Document -> bool) returns (r: Result<seq<Document>, Failure>)
    ensures r == KeptOf(files, dumps)
  {
    var recipes: seq<Document> := [];
    var i := 0;
    while i < |files|
      invariant 0 <= i <= |files|
      invariant KeptOf(files[..i], dumps) == Ok(recipes)
    {
      var file := files[i];
      assert files[..i + 1][..i] == files[..i];
      match file.loaded {
        case LoadError =>
          StopsAt(files, i, dumps);
          return Err(Unloadable(file.filename));
        case Loaded(root) =>
          if root.Some? && root.value.Mapping? {
            var recipe := root.value.entries;
            if "ingredients" !in recipe {
              StopsAt(files, i, dumps);
              return Err(MissingKey(file.filename, "ingredients"));
            }
            if recipe["ingredients"].Null? {
              recipe := recipe["ingredients" := Str("")];
            }
            if "directions" !in recipe {
              StopsAt(files, i, dumps);
              return Err(MissingKey(file.filename, "directions"));
            }
            if recipe["directions"].Null? {
              recipe := recipe["directions" := Str("")];
            }
            if dumps(recipe) {
              recipes := recipes + [recipe];
            }
          }
      }
      i := i + 1;
    }
    assert files[..i] == files;
    r := Ok(recipes);
  }

  /** A failure at file `i` is the failure of the whole command. */
  lemma StopsAt(files: seq<Source>, i: nat, dumps: Document -> bool)
    requires i < |files| && KeptOf(files[..i + 1], dumps).Err?
    ensures KeptOf(files, dumps) == KeptOf(files[..i + 1], dumps)
  {
    KeptOfAppend(files[..i + 1], files[i + 1..], dumps);
    assert files[..i + 1] + files[i + 1..] == files;
  }

  // ------------------------------------------------------------ properties

  /** A repaired record has both keys, neither of them null; every other key
      keeps its value, and a non-null value of the two is left as it was. */
  lemma RepairedFields(filename: string, recipe: Document)
    ensures Repaired(filename, recipe).Ok? <==> "ingredients" in recipe && "directions" in recipe
    ensures Repaired(filename, recipe).Ok? ==>
              var fixed := Repaired(filename, recipe).value;
              && fixed.Keys == recipe.Keys
              && (forall k :: k in recipe && k != "ingredients" && k != "directions" ==> fixed[k] == recipe[k])
              && fixed["ingredients"] == (if recipe["ingredients"].Null? then Str("") else recipe["ingredients"])
              && fixed["directions"] == (if recipe["directions"].Null? then Str("") else recipe["directions"])
  {
    if "ingredients" in recipe && "directions" in recipe {
      var fixed := RepairField(recipe, "ingredients");
      assert fixed.Keys == recipe.Keys;
      assert fixed["directions"] == recipe["directions"];
    }
  }

  /** Repairing a repaired record changes nothing. */
  lemma RepairIdempotent(filename: string, recipe: Document)
    requires Repaired(filename, recipe).Ok?
    ensures Repaired(filename, Repaired(filename, recipe).value) == Repaired(filename, recipe)
  {
    RepairedFields(filename, recipe);
    var fixed := Repaired(filename, recipe).value;
    RepairedFields(filename, fixed);
    assert Repaired(filename, fixed).value == fixed;
  }

  /** The files split anywhere: the list is the two parts' lists joined, and
      the first part's failure, if any, is the whole list's. */
  lemma {:induction false} KeptOfAppend(a: seq<Source>, b: seq<Source>, dumps: Document -> bool)
    ensures KeptOf(a, dumps).Err? ==> KeptOf(a + b, dumps) == KeptOf(a, dumps)
    ensures KeptOf(a, dumps).Ok? && KeptOf(b, dumps).Err? ==> KeptOf(a + b, dumps) == KeptOf(b, dumps)
    ensures KeptOf(a, dumps).Ok? && KeptOf(b, dumps).Ok? ==>
              KeptOf(a + b, dumps) == Ok(KeptOf(a, dumps).value + KeptOf(b, dumps).value)
    decreases |b|
  {
    if b == [] {
      assert a + b == a;
      if KeptOf(a, dumps).Ok? {
        assert KeptOf(a, dumps).value + [] == KeptOf(a, dumps).value;
      }
    } else {
      var init := b[..|b| - 1];
      assert (a + b)[..|a + b| - 1] == a + init;
      assert (a + b)[|a + b| - 1] == b[|b| - 1];
      KeptOfAppend(a, init, dumps);
      if KeptOf(a, dumps).Ok? && KeptOf(init, dumps).Ok? {
        var x, y := KeptOf(a, dumps).value, KeptOf(init, dumps).value;
        assert (x + y) + [] == x + (y + []);
        forall recipe ensures (x + y) + [recipe] == x + (y + [recipe]) {
        }
      }
    }
  }

  /** One file on its own: a failure, nothing, or its repaired record. */
  lemma KeptOfOne(file: Source, dumps: Document -> bool)
    ensures KeptOf([file], dumps) ==
              match Contribution(file, dumps)
              case Err(e) => Err(e)
              case Ok(None) => Ok([])
              case Ok(Some(recipe)) => Ok([recipe])
  {
    assert [file][..|[file]| - 1] == [];
    assert KeptOf([], dumps) == Ok([]);
    match Contribution(file, dumps) {
      case Err(_) =>
      case Ok(None) =>
      case Ok(Some(recipe)) => assert [] + [recipe] == [recipe];
    }
  }

  /** A file that contributes nothing can be dropped without changing the
      result or the order of the others. */
  lemma SkippedFileIgnored(a: seq<Source>, file: Source, b: seq<Source>, dumps: Document -> bool)
    requires Contribution(file, dumps) == Ok(None)
    ensures KeptOf(a + [file] + b, dumps) == KeptOf(a + b, dumps)
  {
    KeptOfOne(file, dumps);
    KeptOfAppend(a, [file], dumps);
    KeptOfAppend(a + [file], b, dumps);
    KeptOfAppend(a, b, dumps);
    if KeptOf(a, dumps).Ok? {
      assert KeptOf(a + [file], dumps) == KeptOf(a, dumps) by {
        assert KeptOf(a, dumps).value + [] == KeptOf(a, dumps).value;
      }
    }
  }

  /** Every record in the combined list has `ingredients` and `directions`,
      and neither is null. */
  lemma {:induction false} KeptRecordsRepaired(files: seq<Source>, dumps: Document -> bool)
    requires KeptOf(files, dumps).Ok?
    ensures forall recipe: Document :: recipe in KeptOf(files, dumps).value ==>
              && "ingredients" in recipe && !recipe["ingredients"].Null?
              && "directions" in recipe && !recipe["directions"].Null?
    ensures forall recipe: Document :: recipe in KeptOf(files, dumps).value ==> dumps(recipe)
  {
    if files != [] {
      var init := files[..|files| - 1];
      KeptRecordsRepaired(init, dumps);
      var last := files[|files| - 1];
      if last.loaded.Loaded? && last.loaded.root.Some? && last.loaded.root.value.Mapping? {
        RepairedFields(last.filename, last.loaded.root.value.entries);
      }
    }
  }

  /** Conversely, when the command succeeds, every file whose mapping repairs
      to a record that re-encodes has that record in the list. */
  lemma {:induction false} RepairedRecordsKept(files: seq<Source>, dumps: Document -> bool, i: nat, recipe: Document)
    requires KeptOf(files, dumps).Ok? && i < |files|
    requires files[i].loaded.Loaded? && files[i].loaded.root.Some? && files[i].loaded.root.value.Mapping?
    requires Repaired(files[i].filename, files[i].loaded.root.value.entries) == Ok(recipe) && dumps(recipe)
    ensures recipe in KeptOf(files, dumps).value
  {
    var init := files[..|files| - 1];
    if i < |init| {
      assert init[i] == files[i];
      RepairedRecordsKept(init, dumps, i, recipe);
    }
  }

  /** The command stops exactly when some file fails, and then with the
      failure of the first such file. */
  lemma {:induction false} KeptOfFails(files: seq<Source>, dumps: Document -> bool)
    ensures KeptOf(files, dumps).Err? <==> exists i :: 0 <= i < |files| && Contribution(files[i], dumps).Err?
    ensures KeptOf(files, dumps).Err? ==>
              exists i :: 0 <= i < |files| && Contribution(files[i], dumps).Err?
                && KeptOf(files, dumps).error == Contribution(files[i], dumps).error && KeptOf(files[..i], dumps).Ok?
  {
    if files != [] {
      var init := files[..|files| - 1];
      KeptOfFails(init, dumps);
      if KeptOf(init, dumps).Err? {
        var i :| 0 <= i < |init| && Contribution(init[i], dumps).Err?
                             && KeptOf(init, dumps).error == Contribution(init[i], dumps).error && KeptOf(init[..i], dumps).Ok?;
        assert files[i] == init[i] && files[..i] == init[..i];
      } else {
        assert files[..|files| - 1] == init;
        forall i | 0 <= i < |init| ensures Contribution(files[i], dumps).Ok? {
          assert files[i] == init[i];
        }
      }
    }
  }
}
