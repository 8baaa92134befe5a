/** `convertRecipe`: the output record assembled from the extractors. The three
    required fields are read with forced casts; every other field is written
    only when its extractor yields a value. */
module Recipe {
  import opened Wrappers
  import opened Text
  import opened ObjectGraph
  import opened Ordering
  import opened Extractors
  import opened Directions

  /** A value of the output record: text, or the bytes of a photo. */
  datatype Field = TextField(text: string) | PhotoField(data: Bytes)

  /** The keys `convertRecipe` writes; `KeyName` gives the text of each. */
  datatype Key =
    | NameKey | IngredientsKey | DirectionsKey | SourceUrlKey | SourceKey
    | ServingsKey | TotalTimeKey | OnFavoritesKey | PhotoKey | NotesKey

  function KeyName(k: Key): string {
    match k
    case NameKey => "name"
    case IngredientsKey => "ingredients"
    case DirectionsKey => "directions"
    case SourceUrlKey => "source_url"
    case SourceKey => "source"
    case ServingsKey => "servings"
    case TotalTimeKey => "total_time"
    case OnFavoritesKey => "on_favorites"
    case PhotoKey => "photo"
    case NotesKey => "notes"
  }

  /** The record handed to the YAML encoder; an absent key is not written. */
  type Record = map<Key, Field>

  /** The photo `convertRecipe` writes: none when images are excluded (and then
      the image list is not even read), otherwise the first image that
      resolves, in `displayOrder`. */
  function PhotoOf(obj: Dict, excludeImages: bool, env: Env): (r: Result<Option<Bytes>, Trap>)
    ensures excludeImages ==> r == Ok(None)
    ensures r.Err? ==> !excludeImages && ExtractImages(obj, env) == Err(r.error)
  {
    if excludeImages then Ok(None)
    else
      match ExtractImages(obj, env)
      case Err(e) => Err(e)
      case Ok(None) => Ok(None)
      case Ok(Some(images)) => if |images| > 0 then Ok(Some(images[0])) else Ok(None)
  }

  /** With images excluded there is no photo and no trap; otherwise the image
      sort's trap is the photo's, and the photo is the first resolved image
      when there is one. */
  lemma PhotoChoice(obj: Dict, excludeImages: bool, env: Env)
    ensures excludeImages ==> PhotoOf(obj, excludeImages, env) == Ok(None)
    ensures !excludeImages ==> (PhotoOf(obj, excludeImages, env).Err? <==> ExtractImages(obj, env).Err?)
    ensures PhotoOf(obj, excludeImages, env).Err? ==> PhotoOf(obj, excludeImages, env) == Err(ExtractImages(obj, env).error)
    ensures PhotoOf(obj, excludeImages, env).Ok? && PhotoOf(obj, excludeImages, env).value.Some? <==>
              !excludeImages && ExtractImages(obj, env).Ok? && ExtractImages(obj, env).value.Some?
              && ExtractImages(obj, env).value.value != []
    ensures PhotoOf(obj, excludeImages, env).Ok? && PhotoOf(obj, excludeImages, env).value.Some? ==>
              PhotoOf(obj, excludeImages, env).value.value == ExtractImages(obj, env).value.value[0]
  {
  }

  /** The photo is the image of the first entry, in `displayOrder`, that
      resolves: its `Data`, else what its `url` fetches, else its thumbnail. */
  lemma PhotoIsFirstResolvable(obj: Dict, env: Env, images: seq<Dict>, i: nat)
    requires GetList(obj, "Image") == Some(images) && Orderable(images)
    requires i < |SortByOrder(images)| && ResolveImage(SortByOrder(images)[i], env).Some?
    requires forall j :: 0 <= j < i ==> ResolveImage(SortByOrder(images)[j], env).None?
    ensures PhotoOf(obj, false, env) == Ok(Some(ResolveImage(SortByOrder(images)[i], env).value))
  {
    FirstResolvedImage(SortByOrder(images), env, i);
  }

  /** No photo is written when no image entry resolves. */
  lemma NoPhotoWithoutImage(obj: Dict, env: Env, images: seq<Dict>)
    requires GetList(obj, "Image") == Some(images) && Orderable(images)
    requires forall j :: 0 <= j < |SortByOrder(images)| ==> ResolveImage(SortByOrder(images)[j], env).None?
    ensures PhotoOf(obj, false, env) == Ok(None)
  {
    NoImageResolved(SortByOrder(images), env);
    assert ExtractImages(obj, env) == Ok(Some([]));
  }

  function SourceUrlField(obj: Dict, env: Env): (r: Option<Field>)
    ensures r.Some? <==> ExtractSourceUrl(obj, env).Some?
    ensures r.Some? ==> r.value == TextField(ExtractSourceUrl(obj, env).value.absolute)
  {
    match ExtractSourceUrl(obj, env)
    case Some(url) => Some(TextField(url.absolute))
    case None => None
  }

  /** The source name is only looked for when there is a source URL. */
  function SourceField(obj: Dict, env: Env): (r: Option<Field>)
    ensures r.Some? <==> ExtractSourceUrl(obj, env).Some? && ExtractSourceUrl(obj, env).value.host.Some?
    ensures r.Some? ==> r.value == TextField(ExtractSourceName(ExtractSourceUrl(obj, env).value).value)
  {
    match ExtractSourceUrl(obj, env)
    case Some(url) =>
      (match ExtractSourceName(url)
       case Some(source) => Some(TextField(source))
       case None => None)
    case None => None
  }

  function TextFieldOf(v: Option<string>): (r: Option<Field>)
    ensures r.Some? <==> v.Some?
    ensures r.Some? ==> r.value == TextField(v.value)
  {
    match v
    case Some(t) => Some(TextField(t))
    case None => None
  }

  function TimeField(obj: Dict): (r: Option<Field>)
    ensures r.Some? <==> ExtractTime(obj).Some?
    ensures r.Some? ==> r.value == TextField(TimeString(ExtractTime(obj).value))
  {
    match ExtractTime(obj)
    case Some(seconds) => Some(TextField(TimeString(seconds)))
    case None => None
  }

  function FavoriteField(obj: Dict): (r: Option<Field>)
    ensures r.Some? <==> ExtractFavorite(obj)
    ensures r.Some? ==> r.value == TextField("yes")
  {
    if ExtractFavorite(obj) then Some(TextField("yes")) else None
  }

  function PhotoFieldOf(photo: Option<Bytes>): (r: Option<Field>)
    ensures r.Some? <==> photo.Some?
    ensures r.Some? ==> r.value == PhotoField(photo.value)
  {
    match photo
    case Some(b) => Some(PhotoField(b))
    case None => None
  }

  /** What `convertRecipe` has to write: the three required texts and, for
      every optional key, its value or `None` where the key is not written. */
  datatype Contents = Contents(
    name: string, ingredients: string, directions: string,
    sourceUrl: Option<Field>, source: Option<Field>, servings: Option<Field>, totalTime: Option<Field>,
    onFavorites: Option<Field>, photo: Option<Field>, notes: Option<Field>)

  function ContentsOf(name: string, ingredients: string, directions: string, obj: Dict, env: Env,
                      photo: Option<Bytes>): Contents
  {
    Contents(name, ingredients, directions,
             SourceUrlField(obj, env), SourceField(obj, env), TextFieldOf(ExtractServings(obj)), TimeField(obj),
             FavoriteField(obj), PhotoFieldOf(photo), TextFieldOf(ExtractNotes(obj)))
  }

  /** The value a key receives, or `None` where it is not written. */
  function ValueOf(k: Key, c: Contents): Option<Field> {
    match k
    case NameKey => Some(TextField(c.name))
    case IngredientsKey => Some(TextField(c.ingredients))
    case DirectionsKey => Some(TextField(c.directions))
    case SourceUrlKey => c.sourceUrl
    case SourceKey => c.source
    case ServingsKey => c.servings
    case TotalTimeKey => c.totalTime
    case OnFavoritesKey => c.onFavorites
    case PhotoKey => c.photo
    case NotesKey => c.notes
  }

  /** The step of `convertRecipe` at which a key is written. */
  function Position(k: Key): nat {
    match k
    case NameKey => 0
    case IngredientsKey => 1
    case DirectionsKey => 2
    case SourceUrlKey => 3
    case SourceKey => 4
    case ServingsKey => 5
    case TotalTimeKey => 6
    case OnFavoritesKey => 7
    case PhotoKey => 8
    case NotesKey => 9
  }

  function KeyAt(n: nat): (k: Key)
    requires n < 10
    ensures Position(k) == n
  {
    if n == 0 then NameKey else if n == 1 then IngredientsKey else if n == 2 then DirectionsKey
    else if n == 3 then SourceUrlKey else if n == 4 then SourceKey else if n == 5 then ServingsKey
    else if n == 6 then TotalTimeKey else if n == 7 then OnFavoritesKey else if n == 8 then PhotoKey
    else NotesKey
  }

  /** `recipe[key] = value` when the extractor yields a value; the record
      unchanged otherwise. */
  function Put(rec: Record, key: Key, v: Option<Field>): (r: Record)
    ensures key in r <==> key in rec || v.Some?
    ensures v.Some? ==> r[key] == v.value
    ensures v.None? ==> r == rec
  {
    match v
    case Some(f) => rec[key := f]
    case None => rec
  }

  /** `Put` leaves every other key as it was: present exactly when it was,
      with the same value. */
  lemma PutFrame(rec: Record, key: Key, v: Option<Field>)
    ensures var r := Put(rec, key, v);
            forall k :: k != key ==> (k in r <==> k in rec) && (k in rec ==> r[k] == rec[k])
  {
  }

  /** The record after the first `n` steps of `convertRecipe`, each of which
      writes one key. */
  function Upto(n: nat, c: Contents): Record
    requires n <= 10
  {
    if n == 0 then map[] else Put(Upto(n - 1, c), KeyAt(n - 1), ValueOf(KeyAt(n - 1), c))
  }

  /** After `n` steps, exactly the keys written by one of them are present,
      with their values. */
  lemma {:induction false} UptoFields(n: nat, c: Contents)
    requires n <= 10
    ensures forall k :: k in Upto(n, c) <==> Position(k) < n && ValueOf(k, c).Some?
    ensures forall k :: k in Upto(n, c) ==> Upto(n, c)[k] == ValueOf(k, c).value
  {
    if n > 0 {
      UptoFields(n - 1, c);
      var key := KeyAt(n - 1);
      forall k ensures Position(k) == n - 1 ==> k == key {
        match k
        case NameKey => case IngredientsKey => case DirectionsKey => case SourceUrlKey => case SourceKey =>
        case ServingsKey => case TotalTimeKey => case OnFavoritesKey => case PhotoKey => case NotesKey =>
      }
    }
  }

  /** The finished record: a key is present exactly when it receives a value,
      and then holds that value; there is no other key. */
  function RecordOf(c: Contents): (r: Record)
    ensures forall k :: k in r <==> ValueOf(k, c).Some?
    ensures forall k :: k in r ==> r[k] == ValueOf(k, c).value
  {
    UptoFields(10, c);
    Upto(10, c)
  }

  /** The dictionary literal `convertRecipe` starts from is its first three
      steps. */
  lemma Start(c: Contents)
    ensures Upto(3, c) == map[NameKey := TextField(c.name), IngredientsKey := TextField(c.ingredients),
                              DirectionsKey := TextField(c.directions)]
  {
    assert Upto(1, c) == map[NameKey := TextField(c.name)];
  }

  /** The optional steps of `convertRecipe`, one `Put` each, on top of the
      dictionary literal. */
  lemma OptionalSteps(c: Contents)
    ensures Upto(10, c) ==
              Put(Put(Put(Put(Put(Put(Put(Upto(3, c), SourceUrlKey, c.sourceUrl), SourceKey, c.source),
                                      ServingsKey, c.servings), TotalTimeKey, c.totalTime),
                          OnFavoritesKey, c.onFavorites), PhotoKey, c.photo), NotesKey, c.notes)
  {
    assert Upto(4, c) == Put(Upto(3, c), SourceUrlKey, c.sourceUrl);
    assert Upto(5, c) == Put(Upto(4, c), SourceKey, c.source);
    assert Upto(6, c) == Put(Upto(5, c), ServingsKey, c.servings);
    assert Upto(7, c) == Put(Upto(6, c), TotalTimeKey, c.totalTime);
    assert Upto(8, c) == Put(Upto(7, c), OnFavoritesKey, c.onFavorites);
    assert Upto(9, c) == Put(Upto(8, c), PhotoKey, c.photo);
    assert Upto(10, c) == Put(Upto(9, c), NotesKey, c.notes);
  }

  /** The record `convertRecipe` returns, or the forced cast it traps on. */
  function RecipeOf(obj: Dict, excludeImages: bool, env: Env): Result<Record, Trap> {
    match ExtractName(obj)
    case Err(e) => Err(e)
    case Ok(name) =>
      match ExtractIngredients(obj)
      case Err(e) => Err(e)
      case Ok(ingredients) =>
        match DirectionsOf(obj)
        case Err(e) => Err(e)
        case Ok(directions) =>
          match PhotoOf(obj, excludeImages, env)
          case Err(e) => Err(e)
          case Ok(photo) => Ok(RecordOf(ContentsOf(name, ingredients, directions, obj, env, photo)))
  }

  /** `convertRecipe` on an already decoded archive object. The dictionary
      literal reads name, ingredients and directions in that order, each with
      forced casts; the optional fields follow, in the order below. The image
      list, whose sort force-casts, is read only when images are not
      excluded. */
  method ConvertRecipe(obj: Dict, excludeImages: bool, env: Env) returns (r: Result<Record, Trap>)
    ensures r == RecipeOf(obj, excludeImages, env)
  {
    var name: string;
    match ExtractName(obj) {
      case Err(e) => return Err(e);
      case Ok(n) => name := n;
    }
    var ingredients: string;
    match ExtractIngredients(obj) {
      case Err(e) => return Err(e);
      case Ok(t) => ingredients := t;
    }
    var directions := ExtractDirections(obj);
    if directions.Err? {
      return Err(directions.error);
    }
    ghost var photo := PhotoOf(obj, excludeImages, env);
    ghost var c := ContentsOf(name, ingredients, directions.value, obj, env, if photo.Ok? then photo.value else None);

    var recipe: Record := map[NameKey := TextField(name), IngredientsKey := TextField(ingredients),
                               DirectionsKey := TextField(directions.value)];
    Start(c);
    r := InsertOptionalFields(recipe, obj, excludeImages, env, c);
  }

  /** The `if let` insertions of `convertRecipe`, in the order the source
      makes them, into a record holding the first three steps of `c`. */
  method InsertOptionalFields(required: Record, obj: Dict, excludeImages: bool, env: Env, ghost c: Contents)
    returns (r: Result<Record, Trap>)
    requires required == Upto(3, c)
    requires c.sourceUrl == SourceUrlField(obj, env) && c.source == SourceField(obj, env)
    requires c.servings == TextFieldOf(ExtractServings(obj)) && c.totalTime == TimeField(obj)
    requires c.onFavorites == FavoriteField(obj) && c.notes == TextFieldOf(ExtractNotes(obj))
    requires PhotoOf(obj, excludeImages, env).Ok? ==> c.photo == PhotoFieldOf(PhotoOf(obj, excludeImages, env).value)
    ensures PhotoOf(obj, excludeImages, env).Err? ==> r == Err(PhotoOf(obj, excludeImages, env).error)
    ensures PhotoOf(obj, excludeImages, env).Ok? ==> r == Ok(Upto(10, c))
  {
    OptionalSteps(c);
    var recipe := InsertSource(required, obj, env);
    recipe := InsertText(recipe, ServingsKey, ExtractServings(obj));
    recipe := InsertTime(recipe, obj);
    if ExtractFavorite(obj) {
      recipe := recipe[OnFavoritesKey := TextField("yes")];
    }
    var withPhoto := InsertPhoto(recipe, obj, excludeImages, env);
    if withPhoto.Err? {
      return withPhoto;
    }
    recipe := InsertText(withPhoto.value, NotesKey, ExtractNotes(obj));
    r := Ok(recipe);
  }

  /** `if let value = ... { recipe[key] = value }` for a text value. */
  method InsertText(recipe: Record, key: Key, value: Option<string>) returns (r: Record)
    ensures r == Put(recipe, key, TextFieldOf(value))
  {
    r := recipe;
    match value {
      case Some(text) => r := r[key := TextField(text)];
      case None =>
    }
  }

  /** The source URL and, when it has a host, the source name. */
  method InsertSource(recipe: Record, obj: Dict, env: Env) returns (r: Record)
    ensures r == Put(Put(recipe, SourceUrlKey, SourceUrlField(obj, env)), SourceKey, SourceField(obj, env))
  {
    r := recipe;
    match ExtractSourceUrl(obj, env) {
      case Some(sourceUrl) =>
        assert SourceUrlField(obj, env) == Some(TextField(sourceUrl.absolute));
        r := r[SourceUrlKey := TextField(sourceUrl.absolute)];
        match ExtractSourceName(sourceUrl) {
          case Some(source) =>
            assert SourceField(obj, env) == Some(TextField(source));
            r := r[SourceKey := TextField(source)];
          case None =>
            assert SourceField(obj, env) == None;
        }
      case None =>
        assert SourceUrlField(obj, env) == None && SourceField(obj, env) == None;
    }
  }

  /** The total time, as its time text, when the archive has a nonzero one. */
  method InsertTime(recipe: Record, obj: Dict) returns (r: Record)
    ensures r == Put(recipe, TotalTimeKey, TimeField(obj))
  {
    r := recipe;
    match ExtractTime(obj) {
      case Some(time) =>
        var text := SecondsToTimeString(time);
        r := r[TotalTimeKey := TextField(text)];
      case None =>
    }
  }

  /** The photo: the image list is read only when images are not excluded,
      and its first image, if any, is written. */
  method InsertPhoto(recipe: Record, obj: Dict, excludeImages: bool, env: Env) returns (r: Result<Record, Trap>)
    ensures PhotoOf(obj, excludeImages, env).Err? ==> r == Err(PhotoOf(obj, excludeImages, env).error)
    ensures PhotoOf(obj, excludeImages, env).Ok? ==>
              r == Ok(Put(recipe, PhotoKey, PhotoFieldOf(PhotoOf(obj, excludeImages, env).value)))
  {
    r := Ok(recipe);
    if !excludeImages {
      match ExtractImages(obj, env) {
        case Err(e) => r := Err(e);
        case Ok(None) =>
        case Ok(Some(images)) =>
          if |images| > 0 {
            r := Ok(recipe[PhotoKey := PhotoField(images[0])]);
          }
      }
    }
  }

  // ------------------------------------------------------------ properties

  /** `convertRecipe` traps at the first forced cast that fails, in the order
      name, ingredients, directions, images; with images excluded the image
      list never traps. */
  lemma RecipeTraps(obj: Dict, excludeImages: bool, env: Env)
    ensures RecipeOf(obj, excludeImages, env).Err? <==>
              ExtractName(obj).Err? || ExtractIngredients(obj).Err? || DirectionsOf(obj).Err?
              || (!excludeImages && ExtractImages(obj, env).Err?)
    ensures ExtractName(obj).Err? ==> RecipeOf(obj, excludeImages, env) == Err(ForcedCast("name"))
    ensures ExtractName(obj).Ok? && ExtractIngredients(obj).Err? ==>
              RecipeOf(obj, excludeImages, env) == Err(ExtractIngredients(obj).error)
    ensures ExtractName(obj).Ok? && ExtractIngredients(obj).Ok? && DirectionsOf(obj).Err? ==>
              RecipeOf(obj, excludeImages, env) == Err(DirectionsOf(obj).error)
    ensures ExtractName(obj).Ok? && ExtractIngredients(obj).Ok? && DirectionsOf(obj).Ok?
            && !excludeImages && ExtractImages(obj, env).Err? ==>
              RecipeOf(obj, excludeImages, env) == Err(ForcedCast("displayOrder"))
  {
    PhotoChoice(obj, excludeImages, env);
    if !excludeImages && ExtractImages(obj, env).Err? {
      assert ExtractImages(obj, env).error == ForcedCast("displayOrder");
    }
  }

  /** The contents behind a record `convertRecipe` returns. */
  lemma RecipeContents(obj: Dict, excludeImages: bool, env: Env, rec: Record) returns (c: Contents)
    requires RecipeOf(obj, excludeImages, env) == Ok(rec)
    ensures rec == RecordOf(c)
    ensures "name" in obj && obj["name"].Str? && c.name == Clean(obj["name"].s)
    ensures ExtractIngredients(obj).Ok? && c.ingredients == ExtractIngredients(obj).value
    ensures DirectionsOf(obj).Ok? && c.directions == DirectionsOf(obj).value
    ensures c.sourceUrl == SourceUrlField(obj, env) && c.source == SourceField(obj, env)
    ensures c.servings == TextFieldOf(ExtractServings(obj)) && c.totalTime == TimeField(obj)
    ensures c.onFavorites == FavoriteField(obj) && c.notes == TextFieldOf(ExtractNotes(obj))
    ensures PhotoOf(obj, excludeImages, env).Ok? && c.photo == PhotoFieldOf(PhotoOf(obj, excludeImages, env).value)
  {
    c := ContentsOf(ExtractName(obj).value, ExtractIngredients(obj).value, DirectionsOf(obj).value,
                    obj, env, PhotoOf(obj, excludeImages, env).value);
  }

  // Where each field of the contents lands in the finished record. These
  // mention no extractor; the lemmas after them apply them to the record
  // `convertRecipe` returns.

  lemma RequiredIn(rec: Record, c: Contents)
    requires rec == RecordOf(c)
    ensures NameKey in rec && rec[NameKey] == TextField(c.name)
    ensures IngredientsKey in rec && rec[IngredientsKey] == TextField(c.ingredients)
    ensures DirectionsKey in rec && rec[DirectionsKey] == TextField(c.directions)
  {
    assert ValueOf(NameKey, c) == Some(TextField(c.name));
    assert ValueOf(IngredientsKey, c) == Some(TextField(c.ingredients));
    assert ValueOf(DirectionsKey, c) == Some(TextField(c.directions));
  }

  lemma SourceIn(rec: Record, c: Contents)
    requires rec == RecordOf(c)
    ensures SourceUrlKey in rec <==> c.sourceUrl.Some?
    ensures SourceUrlKey in rec ==> rec[SourceUrlKey] == c.sourceUrl.value
    ensures SourceKey in rec <==> c.source.Some?
    ensures SourceKey in rec ==> rec[SourceKey] == c.source.value
  {
    assert ValueOf(SourceUrlKey, c) == c.sourceUrl;
    assert ValueOf(SourceKey, c) == c.source;
  }

  lemma PassThroughIn(rec: Record, c: Contents)
    requires rec == RecordOf(c)
    ensures ServingsKey in rec <==> c.servings.Some?
    ensures ServingsKey in rec ==> rec[ServingsKey] == c.servings.value
    ensures NotesKey in rec <==> c.notes.Some?
    ensures NotesKey in rec ==> rec[NotesKey] == c.notes.value
  {
    assert ValueOf(ServingsKey, c) == c.servings;
    assert ValueOf(NotesKey, c) == c.notes;
  }

  lemma TimeAndFavoriteIn(rec: Record, c: Contents)
    requires rec == RecordOf(c)
    ensures TotalTimeKey in rec <==> c.totalTime.Some?
    ensures TotalTimeKey in rec ==> rec[TotalTimeKey] == c.totalTime.value
    ensures OnFavoritesKey in rec <==> c.onFavorites.Some?
    ensures OnFavoritesKey in rec ==> rec[OnFavoritesKey] == c.onFavorites.value
  {
    assert ValueOf(TotalTimeKey, c) == c.totalTime;
    assert ValueOf(OnFavoritesKey, c) == c.onFavorites;
  }

  lemma PhotoIn(rec: Record, c: Contents)
    requires rec == RecordOf(c)
    ensures PhotoKey in rec <==> c.photo.Some?
    ensures PhotoKey in rec ==> rec[PhotoKey] == c.photo.value
  {
    assert ValueOf(PhotoKey, c) == c.photo;
  }

  /** Name, ingredients and directions are always written; the name is the
      raw name with its surrounding whitespace removed. */
  lemma RequiredFieldsWritten(obj: Dict, excludeImages: bool, env: Env, rec: Record)
    requires RecipeOf(obj, excludeImages, env) == Ok(rec)
    ensures NameKey in rec && rec[NameKey] == TextField(Clean(obj["name"].s))
    ensures IngredientsKey in rec && rec[IngredientsKey] == TextField(ExtractIngredients(obj).value)
    ensures DirectionsKey in rec && rec[DirectionsKey] == TextField(DirectionsOf(obj).value)
  {
    var c := RecipeContents(obj, excludeImages, env, rec);
    RequiredIn(rec, c);
  }

  /** `source_url` is written exactly when the source parses as a URL, and
      `source` only together with it, when that URL has a host. */
  lemma SourceFieldsWritten(obj: Dict, excludeImages: bool, env: Env, rec: Record)
    requires RecipeOf(obj, excludeImages, env) == Ok(rec)
    ensures SourceUrlKey in rec <==> ExtractSourceUrl(obj, env).Some?
    ensures SourceUrlKey in rec ==> rec[SourceUrlKey] == TextField(ExtractSourceUrl(obj, env).value.absolute)
    ensures SourceKey in rec ==> SourceUrlKey in rec
    ensures SourceKey in rec <==> ExtractSourceUrl(obj, env).Some? && ExtractSourceUrl(obj, env).value.host.Some?
    ensures SourceKey in rec ==> rec[SourceKey] == TextField(ExtractSourceName(ExtractSourceUrl(obj, env).value).value)
  {
    var c := RecipeContents(obj, excludeImages, env, rec);
    SourceIn(rec, c);
  }

  /** `servings` and `notes` are written exactly when present as strings,
      unchanged. */
  lemma PassThroughFieldsWritten(obj: Dict, excludeImages: bool, env: Env, rec: Record)
    requires RecipeOf(obj, excludeImages, env) == Ok(rec)
    ensures ServingsKey in rec <==> "servings" in obj && obj["servings"].Str?
    ensures ServingsKey in rec ==> rec[ServingsKey] == TextField(obj["servings"].s)
    ensures NotesKey in rec <==> "notes" in obj && obj["notes"].Str?
    ensures NotesKey in rec ==> rec[NotesKey] == TextField(obj["notes"].s)
  {
    var c := RecipeContents(obj, excludeImages, env, rec);
    PassThroughIn(rec, c);
  }

  /** `total_time` is written exactly for a nonzero `Int` time, as its time
      text; `on_favorites` exactly for a nonzero `Int` favourite, and then
      always as "yes". */
  lemma TimeAndFavoriteWritten(obj: Dict, excludeImages: bool, env: Env, rec: Record)
    requires RecipeOf(obj, excludeImages, env) == Ok(rec)
    ensures TotalTimeKey in rec <==> "time" in obj && obj["time"].Int? && obj["time"].i != 0
    ensures TotalTimeKey in rec ==> rec[TotalTimeKey] == TextField(TimeString(obj["time"].i))
    ensures OnFavoritesKey in rec <==> "favorite" in obj && obj["favorite"].Int? && obj["favorite"].i != 0
    ensures OnFavoritesKey in rec ==> rec[OnFavoritesKey] == TextField("yes")
  {
    var c := RecipeContents(obj, excludeImages, env, rec);
    TimeAndFavoriteIn(rec, c);
  }

  /** `photo` is written exactly when images are not excluded and some image
      entry resolves, and it is the first one that does. */
  lemma PhotoWritten(obj: Dict, excludeImages: bool, env: Env, rec: Record)
    requires RecipeOf(obj, excludeImages, env) == Ok(rec)
    ensures !excludeImages ==> ExtractImages(obj, env).Ok?
    ensures PhotoKey in rec <==>
              !excludeImages && ExtractImages(obj, env).value.Some? && ExtractImages(obj, env).value.value != []
    ensures PhotoKey in rec ==> rec[PhotoKey] == PhotoField(ExtractImages(obj, env).value.value[0])
  {
    var c := RecipeContents(obj, excludeImages, env, rec);
    PhotoIn(rec, c);
    PhotoChoice(obj, excludeImages, env);
  }

  /** The keys are written under distinct names, so no field of the record
      overwrites another. */
  lemma KeyNamesDistinct(a: Key, b: Key)
    requires KeyName(a) == KeyName(b)
    ensures a == b
  {
  }
}
