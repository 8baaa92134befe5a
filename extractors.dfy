/** The per-field extraction rules of `main.swift`: name, ingredients, source
    URL and source name, servings, total time, favourite flag, images and
    notes. Directions, which need a stateful scan, live in module Directions. */
module Extractors {
  import opened Wrappers
  import opened Text
  import opened ObjectGraph
  import opened Ordering

  /** What Foundation's `URL(string:)` yields: the absolute string and, when
      there is one, the host. */
  datatype Url = Url(absolute: string, host: Option<string>)

  /** The collaborators the extractors call but that are not part of this
      model: Foundation's URL parser and `Data(contentsOf:)`, which fetches
      the bytes behind a URL over the network and may fail. */
  datatype Env = Env(parseUrl: string -> Option<Url>, fetch: Url -> Option<Bytes>)

  // ---------------------------------------------------------------- name

  /** `extractName`: `obj["name"] as! String`, cleaned. */
  function ExtractName(obj: Dict): (r: Result<string, Trap>)
    ensures r.Err? <==> !("name" in obj && obj["name"].Str?)
    ensures r.Err? ==> r.error == ForcedCast("name")
    ensures r.Ok? ==> r.value == Clean(obj["name"].s)
  {
    match GetString(obj, "name")
    case Some(s) => Ok(Clean(s))
    case None => Err(ForcedCast("name"))
  }

  // ---------------------------------------------------------- ingredients

  predicate HasText(d: Dict) {
    GetString(d, "text").Some?
  }

  /** The entries that carry a string `text`, in their original order. */
  function WithText(s: seq<Dict>): (r: seq<Dict>)
    ensures |r| <= |s|
  {
    if s == [] then []
    else
      var rest := WithText(s[1..]);
      if HasText(s[0]) then [s[0]] + rest else rest
  }

  /** WithText keeps exactly the entries that have text. */
  lemma {:induction false} WithTextMembers(s: seq<Dict>)
    ensures forall i :: 0 <= i < |WithText(s)| ==> HasText(WithText(s)[i]) && WithText(s)[i] in s
    ensures forall d :: d in s && HasText(d) ==> d in WithText(s)
  {
    if s != [] {
      WithTextMembers(s[1..]);
      assert forall d :: d in s && d != s[0] ==> d in s[1..];
    }
  }

  /** WithText keeps each entry that has text as many times as it occurs,
      and drops every other entry. */
  lemma {:induction false} WithTextCounts(s: seq<Dict>)
    ensures forall d :: multiset(WithText(s))[d] == if HasText(d) then multiset(s)[d] else 0
  {
    if s != [] {
      WithTextCounts(s[1..]);
      assert s == [s[0]] + s[1..];
    }
  }

  /** `flatMap { d["text"] as? String }`: the texts, skipping entries without
      one. */
  function TextsOf(s: seq<Dict>): (r: seq<string>)
    ensures |r| == |WithText(s)|
    ensures forall i :: 0 <= i < |r| ==> Some(r[i]) == GetString(WithText(s)[i], "text")
  {
    if s == [] then []
    else
      match GetString(s[0], "text")
      case Some(t) => [t] + TextsOf(s[1..])
      case None => TextsOf(s[1..])
  }

  /** `extractIngredients`: the entries sorted by `displayOrder`, their texts
      joined by a newline. The list cast and the comparator's casts are forced. */
  function ExtractIngredients(obj: Dict): (r: Result<string, Trap>)
    ensures r.Err? <==> GetList(obj, "Ingredient").None? || !Orderable(GetList(obj, "Ingredient").value)
  {
    match GetList(obj, "Ingredient")
    case None => Err(ForcedCast("Ingredient"))
    case Some(list) =>
      if !Orderable(list) then Err(ForcedCast("displayOrder"))
      else Ok(Join(TextsOf(SortByOrder(list)), "\n"))
  }

  lemma {:induction false} WithTextSorted(s: seq<Dict>)
    requires SortedByOrder(s)
    ensures SortedByOrder(WithText(s))
  {
    if s != [] {
      WithTextSorted(s[1..]);
      WithTextMembers(s[1..]);
      var rest := WithText(s[1..]);
      forall k | 0 <= k < |rest| ensures OrderKey(s[0]) <= OrderKey(rest[k]) {
        var m :| 0 <= m < |s[1..]| && s[1..][m] == rest[k];
        assert s[m + 1] == rest[k];
      }
    }
  }

  lemma WithTextInsertFront(d: Dict, s: seq<Dict>)
    requires SortedByOrder(s) && (s == [] || OrderKey(d) <= OrderKey(s[0]))
    ensures SortedByOrder(WithText(s))
    ensures WithText(Insert(d, s)) == if HasText(d) then Insert(d, WithText(s)) else WithText(s)
  {
    WithTextSorted(s);
    var w := WithText(s);
    assert Insert(d, s) == [d] + s;
    assert ([d] + s)[1..] == s;
    assert WithText([d] + s) == if HasText(d) then [d] + w else w;
    if HasText(d) {
      WithTextHeadBound(d, s);
      assert Insert(d, w) == [d] + w;
    }
  }

  /** A lower bound on a sorted list bounds its texted entries too. */
  lemma WithTextHeadBound(d: Dict, s: seq<Dict>)
    requires SortedByOrder(s) && (s == [] || OrderKey(d) <= OrderKey(s[0]))
    ensures WithText(s) == [] || OrderKey(d) <= OrderKey(WithText(s)[0])
  {
    var w := WithText(s);
    if w != [] {
      WithTextMembers(s);
      assert w[0] in s;
      var m :| 0 <= m < |s| && s[m] == w[0];
      HeadIsLeast(s, m);
    }
  }

  lemma {:induction false} WithTextInsert(d: Dict, s: seq<Dict>)
    requires SortedByOrder(s)
    ensures SortedByOrder(WithText(s))
    ensures WithText(Insert(d, s)) == if HasText(d) then Insert(d, WithText(s)) else WithText(s)
  {
    WithTextSorted(s);
    if s == [] || OrderKey(d) <= OrderKey(s[0]) {
      WithTextInsertFront(d, s);
    } else {
      WithTextInsert(d, s[1..]);
      var t := Insert(d, s[1..]);
      assert Insert(d, s) == [s[0]] + t;
      assert ([s[0]] + t)[1..] == t;
      assert WithText(s) == (if HasText(s[0]) then [s[0]] else []) + WithText(s[1..]);
    }
  }

  /** Dropping the entries without text before sorting gives the same entries
      as dropping them after sorting. */
  lemma {:induction false} WithTextCommutesWithSort(s: seq<Dict>)
    ensures WithText(SortByOrder(s)) == SortByOrder(WithText(s))
  {
    if s != [] {
      WithTextCommutesWithSort(s[1..]);
      WithTextInsert(s[0], SortByOrder(s[1..]));
    }
  }

  lemma {:induction false} TextsOfOnlyText(s: seq<Dict>)
    ensures TextsOf(WithText(s)) == TextsOf(s)
  {
    if s != [] {
      TextsOfOnlyText(s[1..]);
      if HasText(s[0]) {
        assert ([s[0]] + WithText(s[1..]))[1..] == WithText(s[1..]);
      }
    }
  }

  /** Entries without text contribute nothing: removing them from the archive
      leaves the ingredients text unchanged. */
  lemma TextlessIngredientsIgnored(list: seq<Dict>)
    ensures Join(TextsOf(SortByOrder(list)), "\n") == Join(TextsOf(SortByOrder(WithText(list))), "\n")
  {
    WithTextCommutesWithSort(list);
    TextsOfOnlyText(SortByOrder(list));
  }

  /** When no ingredient text contains a line break and one has text, the
      lines of the ingredients field are exactly the texts of the entries that
      have one, one line each, in ascending `displayOrder`. */
  lemma IngredientLines(obj: Dict, list: seq<Dict>)
    requires GetList(obj, "Ingredient") == Some(list) && Orderable(list)
    requires exists d :: d in list && HasText(d)
    requires forall d :: d in list && HasText(d) ==> '\n' !in GetString(d, "text").value
    ensures ExtractIngredients(obj).Ok?
    ensures var lines := SplitOn(ExtractIngredients(obj).value, '\n');
            var kept := WithText(SortByOrder(list));
            && SortedByOrder(kept)
            && |lines| == |kept|
            && forall i :: 0 <= i < |lines| ==> Some(lines[i]) == GetString(kept[i], "text")
  {
    var sorted := SortByOrder(list);
    var kept := WithText(sorted);
    WithTextSorted(sorted);
    var texts := TextsOf(sorted);
    WithTextMembers(sorted);
    var d :| d in list && HasText(d);
    assert d in multiset(sorted);
    assert d in kept;
    forall i | 0 <= i < |texts| ensures '\n' !in texts[i] {
      assert kept[i] in sorted;
      assert kept[i] in multiset(list);
    }
    SplitJoinRoundTrip(texts, '\n');
  }

  // ------------------------------------------------------------- source

  /** `extractSourceURL`: the `source` string, if it parses as a URL. */
  function ExtractSourceUrl(obj: Dict, env: Env): (r: Option<Url>)
    ensures r.Some? ==> "source" in obj && obj["source"].Str? && env.parseUrl(obj["source"].s) == r
    ensures GetString(obj, "source").Some? ==> r == env.parseUrl(GetString(obj, "source").value)
    ensures GetString(obj, "source").None? ==> r.None?
  {
    match GetString(obj, "source")
    case Some(text) => env.parseUrl(text)
    case None => None
  }

  predicate HasWwwPrefix(host: string) {
    |host| >= 4 && host[..4] == "www."
  }

  /** `extractSourceName`: the URL's host with one leading `www.` removed. */
  function ExtractSourceName(url: Url): (r: Option<string>)
    ensures r.None? <==> url.host.None?
    ensures r.Some? ==> |r.value| <= |url.host.value| && r.value == url.host.value[|url.host.value| - |r.value|..]
    ensures r.Some? ==> (HasWwwPrefix(url.host.value) <==> url.host.value == "www." + r.value)
    ensures r.Some? && !HasWwwPrefix(url.host.value) ==> r.value == url.host.value
  {
    match url.host
    case None => None
    case Some(host) =>
      if HasWwwPrefix(host) then
        assert host == "www." + host[4..];
        Some(host[4..])
      else Some(host)
  }

  /** Only one `www.` is removed: a host with two keeps the second. */
  lemma SourceNameStripsOnce(rest: string)
    ensures ExtractSourceName(Url("", Some("www.www." + rest))) == Some("www." + rest)
  {
    assert ("www.www." + rest)[4..] == "www." + rest;
  }

  // ---------------------------------------------------- pass-through fields

  /** `extractServings`: `obj["servings"] as? String`. */
  function ExtractServings(obj: Dict): (r: Option<string>)
    ensures r.Some? <==> "servings" in obj && obj["servings"].Str?
    ensures r.Some? ==> obj["servings"] == Str(r.value)
  {
    GetString(obj, "servings")
  }

  /** `extractNotes`: `obj["notes"] as? String`. */
  function ExtractNotes(obj: Dict): (r: Option<string>)
    ensures r.Some? <==> "notes" in obj && obj["notes"].Str?
    ensures r.Some? ==> obj["notes"] == Str(r.value)
  {
    GetString(obj, "notes")
  }

  // --------------------------------------------------------------- time

  /** `extractTime`: the `Int` number of seconds, where zero means no time. */
  function ExtractTime(obj: Dict): (r: Option<int>)
    ensures r.Some? <==> "time" in obj && obj["time"].Int? && obj["time"].i != 0
    ensures r.Some? ==> obj["time"] == Int(r.value) && r.value != 0
  {
    match GetInt(obj, "time")
    case Some(seconds) => if seconds == 0 then None else Some(seconds)
    case None => None
  }

  /** Swift's `/` on `Int`, which rounds toward zero: the remainder
      `a - q * b` has the sign of `a` and is smaller than `b` in size. */
  function TruncDiv(a: int, b: int): (q: int)
    requires b > 0
    ensures var r := a - q * b; (a >= 0 ==> 0 <= r < b) && (a < 0 ==> -b < r <= 0)
  {
    if a >= 0 then a / b else -((-a) / b)
  }

  /** What `secondsToTimeString` returns: whole hours and the minutes left
      over, the seconds below a minute dropped. */
  function TimeString(seconds: int): string {
    var hours := TruncDiv(seconds, 3600);
    var minutes := TruncDiv(seconds - hours * 3600, 60);
    TimeText(hours, minutes)
  }

  /** `secondsToTimeString`, updating `seconds` and `text` in place as the
      source does. */
  method SecondsToTimeString(seconds: int) returns (text: string)
    ensures text == TimeString(seconds)
  {
    var s := seconds;
    var hours := TruncDiv(s, 3600);
    s := s - hours * 3600;
    var minutes := TruncDiv(s, 60);
    text := DecimalString(minutes) + " min";
    if hours > 0 {
      text := DecimalString(hours) + " hr " + text;
    }
  }

  /** Reads a time text back into seconds: "<h> hr <m> min" or "<m> min". */
  function ParseTimeString(t: string): Option<int> {
    if |t| < 4 || t[|t| - 4..] != " min" then None
    else
      var body := t[..|t| - 4];
      if ' ' !in body then
        match ParseDecimal(body)
        case Some(m) => Some(m * 60)
        case None => None
      else
        var i := IndexOf(body, ' ');
        if |body| < i + 4 || body[i..i + 4] != " hr " then None
        else
          match ParseDecimal(body[..i])
          case None => None
          case Some(h) =>
            match ParseDecimal(body[i + 4..])
            case None => None
            case Some(m) => Some(h * 3600 + m * 60)
  }

  function IndexOf(s: string, c: char): (i: nat)
    requires c in s
    ensures i < |s| && s[i] == c && c !in s[..i]
  {
    if s[0] == c then 0
    else
      assert c in s[1..] by { assert s == [s[0]] + s[1..]; }
      var j := IndexOf(s[1..], c);
      assert s[..j + 1] == [s[0]] + s[1..][..j];
      j + 1
  }

  /** The text for `hours` and `minutes`, as `secondsToTimeString` lays it out. */
  function TimeText(hours: int, minutes: int): string {
    (if hours > 0 then DecimalString(hours) + " hr " else "") + DecimalString(minutes) + " min"
  }

  lemma TimeTextParses(h: nat, m: nat, seconds: int)
    requires seconds == h * 3600 + m * 60
    ensures ParseTimeString(TimeText(h, m)) == Some(seconds)
  {
    DecimalRoundTrip(h);
    DecimalRoundTrip(m);
    if h > 0 {
      ParseHoursAndMinutes(TimeText(h, m), DecimalString(h), DecimalString(m), h, m, seconds);
    } else {
      ParseMinutes(TimeText(h, m), DecimalString(m), m, seconds);
    }
  }

  lemma ParseMinutes(t: string, ms: string, m: int, seconds: int)
    requires t == ms + " min" && ' ' !in ms && ParseDecimal(ms) == Some(m) && seconds == m * 60
    ensures ParseTimeString(t) == Some(seconds)
  {
    assert t[..|t| - 4] == ms && t[|t| - 4..] == " min";
  }

  lemma ParseHoursAndMinutes(t: string, hs: string, ms: string, h: int, m: int, seconds: int)
    requires t == hs + " hr " + ms + " min" && ' ' !in hs
    requires ParseDecimal(hs) == Some(h) && ParseDecimal(ms) == Some(m) && seconds == h * 3600 + m * 60
    ensures ParseTimeString(t) == Some(seconds)
  {
    var body := hs + " hr " + ms;
    assert t == body + " min";
    assert t[..|t| - 4] == body && t[|t| - 4..] == " min";
    assert body[|hs|] == ' ';
    assert body[..|hs|] == hs;
    assert IndexOf(body, ' ') == |hs|;
    assert body[|hs|..|hs| + 4] == " hr ";
    assert body[|hs| + 4..] == ms;
  }

  /** For a non-negative number of seconds, the hours and minutes are the
      Euclidean quotients `seconds / 3600` and `seconds % 3600 / 60`: whole
      hours, then whole minutes under 60, together the seconds rounded down
      to a whole minute. */
  lemma TimeStringNonNegative(seconds: int) returns (h: nat, m: nat)
    requires seconds >= 0
    ensures TimeString(seconds) == TimeText(h, m)
    ensures h * 3600 + m * 60 == seconds - seconds % 60 && m < 60
  {
    h, m := seconds / 3600, seconds % 3600 / 60;
    assert seconds - h * 3600 == seconds % 3600;
    var r := seconds % 3600;
    assert r == r / 60 * 60 + r % 60;
    assert seconds % 60 == r % 60 by {
      assert seconds == h * 60 * 60 + r;
    }
  }

  /** For a non-negative number of seconds the time text says how many whole
      minutes it holds: reading it back gives the seconds rounded down to a
      whole minute, `rounded`. */
  lemma TimeStringRoundTrip(seconds: int, rounded: int)
    requires seconds >= 0 && rounded == seconds - seconds % 60
    ensures ParseTimeString(TimeString(seconds)) == Some(rounded)
  {
    var h, m := TimeStringNonNegative(seconds);
    TimeTextParses(h, m, rounded);
  }

  lemma TimeStringExamples()
    ensures TimeString(90) == "1 min"
    ensures TimeString(3661) == "1 hr 1 min"
  {
    assert DecimalString(1) == "1" by { assert DigitChar(1) == '1'; }
    assert TruncDiv(90, 3600) == 0 && TruncDiv(90, 60) == 1;
    assert TruncDiv(3661, 3600) == 1 && TruncDiv(61, 60) == 1;
  }

  /** Leftover seconds are dropped, and whole hours still show their
      minutes. */
  lemma TimeStringTruncates()
    ensures TimeString(59) == "0 min"
    ensures TimeString(7200) == "2 hr 0 min"
  {
    assert DecimalString(0) == "0" by { assert DigitChar(0) == '0'; }
    assert DecimalString(2) == "2" by { assert DigitChar(2) == '2'; }
    assert TruncDiv(59, 3600) == 0 && TruncDiv(59, 60) == 0;
    assert TruncDiv(7200, 3600) == 2 && TruncDiv(0, 60) == 0;
  }

  // ----------------------------------------------------------- favourite

  /** `extractFavorite`: a present `Int` other than zero. */
  function ExtractFavorite(obj: Dict): (r: bool)
    ensures r <==> "favorite" in obj && obj["favorite"].Int? && obj["favorite"].i != 0
  {
    match GetInt(obj, "favorite")
    case Some(favorite) => favorite != 0
    case None => false
  }

  // -------------------------------------------------------------- images

  /** One image entry: its `Data` blob; else, when it has a `url` string, the
      bytes fetched from it (nothing if the URL does not parse or the fetch
      fails, without falling back to the thumbnail); else its `thumbnail`
      blob; else nothing. */
  function ResolveImage(d: Dict, env: Env): (r: Option<Bytes>)
    ensures GetBlob(d, "Data").Some? ==> r == GetBlob(d, "Data")
    ensures GetBlob(d, "Data").None? && GetString(d, "url").Some? ==>
              r == (match env.parseUrl(GetString(d, "url").value)
                    case Some(u) => env.fetch(u)
                    case None => None)
    ensures GetBlob(d, "Data").None? && GetString(d, "url").None? ==> r == GetBlob(d, "thumbnail")
  {
    match GetBlob(d, "Data")
    case Some(data) => Some(data)
    case None =>
      match GetString(d, "url")
      case Some(urlText) =>
        (match env.parseUrl(urlText)
         case Some(url) => env.fetch(url)
         case None => None)
      case None => GetBlob(d, "thumbnail")
  }

  /** The `flatMap` over the sorted image entries: every entry that resolves,
      in order. */
  function ResolvedImages(s: seq<Dict>, env: Env): (r: seq<Bytes>)
    ensures |r| <= |s|
  {
    if s == [] then []
    else
      match ResolveImage(s[0], env)
      case Some(b) => [b] + ResolvedImages(s[1..], env)
      case None => ResolvedImages(s[1..], env)
  }

  /** `extractImages`: nothing unless `Image` is a list of dictionaries; the
      comparator's casts are forced. */
  function ExtractImages(obj: Dict, env: Env): (r: Result<Option<seq<Bytes>>, Trap>)
    ensures r.Err? <==> GetList(obj, "Image").Some? && !Orderable(GetList(obj, "Image").value)
    ensures r == Ok(None) <==> GetList(obj, "Image").None?
  {
    match GetList(obj, "Image")
    case None => Ok(None)
    case Some(images) =>
      if !Orderable(images) then Err(ForcedCast("displayOrder"))
      else Ok(Some(ResolvedImages(SortByOrder(images), env)))
  }

  /** The first resolved image is that of the first entry, in order, that
      resolves; there is none exactly when no entry resolves. */
  lemma {:induction false} FirstResolvedImage(s: seq<Dict>, env: Env, i: nat)
    requires i < |s| && ResolveImage(s[i], env).Some?
    requires forall j :: 0 <= j < i ==> ResolveImage(s[j], env).None?
    ensures ResolvedImages(s, env) != []
    ensures ResolvedImages(s, env)[0] == ResolveImage(s[i], env).value
  {
    if i > 0 {
      FirstResolvedImage(s[1..], env, i - 1);
    }
  }

  lemma {:induction false} NoImageResolved(s: seq<Dict>, env: Env)
    ensures ResolvedImages(s, env) == [] <==> forall j :: 0 <= j < |s| ==> ResolveImage(s[j], env).None?
  {
    if s != [] {
      NoImageResolved(s[1..], env);
      assert forall j :: 1 <= j < |s| ==> s[j] == s[1..][j - 1];
    }
  }
}
