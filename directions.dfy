/** `extractDirections`: the direction entries in ascending `displayOrder`,
    each rendered by a scan that carries `startOrder`. A text ending in a colon
    is a section header: it is emitted as it is and the next section starts
    counting after its order. Every other text is numbered
    `order - startOrder + 1`. The pieces are joined by a blank line. */
module Directions {
  import opened Wrappers
  import opened Text
  import opened ObjectGraph
  import opened Ordering

  /** `text.hasSuffix(":")` */
  predicate IsHeader(text: string)
    ensures IsHeader(text) <==> |text| >= 1 && text[|text| - 1..] == ":"
  {
    |text| > 0 && text[|text| - 1] == ':'
  }

  /** Both forced casts of the `map` closure succeed on this entry. */
  predicate Readable(d: Dict) {
    GetInt(d, "displayOrder").Some? && GetString(d, "text").Some?
  }

  function TextOf(d: Dict): string {
    match GetString(d, "text")
    case Some(t) => t
    case None => ""
  }

  /** The piece one entry contributes, given the `startOrder` in effect. */
  function Piece(order: int, text: string, startOrder: int): string {
    if IsHeader(text) then text else DecimalString(order - startOrder + 1) + ". " + text
  }

  /** `startOrder` after an entry. */
  function NextStart(order: int, text: string, startOrder: int): int {
    if IsHeader(text) then order + 1 else startOrder
  }

  /** The `map` over the sorted entries with `startOrder` threaded through,
      stopping at the first entry whose `displayOrder` or `text` cast fails. */
  function NumberFrom(s: seq<Dict>, startOrder: int): Result<seq<string>, Trap> {
    if s == [] then Ok([])
    else
      match GetInt(s[0], "displayOrder")
      case None => Err(ForcedCast("displayOrder"))
      case Some(order) =>
        match GetString(s[0], "text")
        case None => Err(ForcedCast("text"))
        case Some(text) =>
          match NumberFrom(s[1..], NextStart(order, text, startOrder))
          case Err(e) => Err(e)
          case Ok(rest) => Ok([Piece(order, text, startOrder)] + rest)
  }

  /** What `extractDirections` returns, or where it traps. */
  function DirectionsOf(obj: Dict): Result<string, Trap> {
    match GetList(obj, "Direction")
    case None => Err(ForcedCast("Direction"))
    case Some(list) =>
      if !Orderable(list) then Err(ForcedCast("displayOrder"))
      else
        match NumberFrom(SortByOrder(list), 0)
        case Err(e) => Err(e)
        case Ok(pieces) => Ok(Join(pieces, "\n\n"))
  }

  function Prepend(p: seq<string>, r: Result<seq<string>, Trap>): Result<seq<string>, Trap> {
    match r
    case Ok(q) => Ok(p + q)
    case Err(e) => Err(e)
  }

  /** `extractDirections`: the forced casts of the list and of the sort, the
      scan, and the join. */
  method ExtractDirections(obj: Dict) returns (r: Result<string, Trap>)
    ensures r == DirectionsOf(obj)
  {
    var list: seq<Dict>;
    match GetList(obj, "Direction") {
      case None => return Err(ForcedCast("Direction"));
      case Some(l) => list := l;
    }
    if !Orderable(list) {
      return Err(ForcedCast("displayOrder"));
    }
    var pieces := NumberEntries(SortByOrder(list));
    match pieces {
      case Err(e) => r := Err(e);
      case Ok(p) => r := Ok(Join(p, "\n\n"));
    }
  }

  /** The `map` over the sorted entries, written as the loop it is: the
      closure updates the captured `startOrder` in place while the pieces are
      collected. */
  method NumberEntries(sorted: seq<Dict>) returns (r: Result<seq<string>, Trap>)
    ensures r == NumberFrom(sorted, 0)
  {
    var startOrder := 0;
    var pieces: seq<string> := [];
    var i := 0;
    PrependNothing(NumberFrom(sorted, 0));
    while i < |sorted|
      invariant 0 <= i <= |sorted|
      invariant NumberFrom(sorted, 0) == Prepend(pieces, NumberFrom(sorted[i..], startOrder))
    {
      var d := sorted[i];
      NumberFromAt(sorted, i, startOrder);
      ghost var before := startOrder;
      var order: int;
      var text: string;
      match GetInt(d, "displayOrder") {
        case None => return Err(ForcedCast("displayOrder"));
        case Some(n) => order := n;
      }
      match GetString(d, "text") {
        case None => return Err(ForcedCast("text"));
        case Some(t) => text := t;
      }
      var piece;
      piece, startOrder := RenderEntry(order, text, startOrder);
      Advance(sorted, i, before, pieces);
      pieces := pieces + [piece];
      i := i + 1;
    }
    assert sorted[i..] == [];
    assert pieces + [] == pieces;
    r := Ok(pieces);
  }

  /** The body of the `map` closure: a header is returned as it is and moves
      `startOrder` past its order; any other text is numbered. */
  method RenderEntry(order: int, text: string, startOrder: int) returns (piece: string, next: int)
    ensures piece == Piece(order, text, startOrder) && next == NextStart(order, text, startOrder)
  {
    next := startOrder;
    if IsHeader(text) {
      next := order + 1;
      piece := text;
    } else {
      piece := DecimalString(order - startOrder + 1) + ". " + text;
    }
  }

  /** One readable entry moves from the rest of the scan to the pieces. */
  lemma Advance(s: seq<Dict>, i: nat, start: int, pieces: seq<string>)
    requires i < |s| && Readable(s[i])
    ensures var order := GetInt(s[i], "displayOrder").value;
            var text := GetString(s[i], "text").value;
            Prepend(pieces, NumberFrom(s[i..], start)) ==
              Prepend(pieces + [Piece(order, text, start)], NumberFrom(s[i + 1..], NextStart(order, text, start)))
  {
    var order := GetInt(s[i], "displayOrder").value;
    var text := GetString(s[i], "text").value;
    NumberFromAt(s, i, start);
    PrependTwice(pieces, [Piece(order, text, start)], NumberFrom(s[i + 1..], NextStart(order, text, start)));
  }

  lemma PrependNothing(r: Result<seq<string>, Trap>)
    ensures Prepend([], r) == r
  {
    if r.Ok? {
      assert [] + r.value == r.value;
    }
  }

  lemma PrependTwice(p: seq<string>, q: seq<string>, r: Result<seq<string>, Trap>)
    ensures Prepend(p, Prepend(q, r)) == Prepend(p + q, r)
  {
    if r.Ok? {
      assert p + (q + r.value) == p + q + r.value;
    }
  }

  /** One step of the scan at position `i`. */
  lemma NumberFromAt(s: seq<Dict>, i: nat, start: int)
    requires i < |s|
    ensures GetInt(s[i], "displayOrder").None? ==> NumberFrom(s[i..], start) == Err(ForcedCast("displayOrder"))
    ensures GetInt(s[i], "displayOrder").Some? && GetString(s[i], "text").None? ==>
              NumberFrom(s[i..], start) == Err(ForcedCast("text"))
    ensures Readable(s[i]) ==>
              var order := GetInt(s[i], "displayOrder").value;
              var text := GetString(s[i], "text").value;
              NumberFrom(s[i..], start) ==
                Prepend([Piece(order, text, start)], NumberFrom(s[i + 1..], NextStart(order, text, start)))
  {
    assert s[i..][0] == s[i] && s[i..][1..] == s[i + 1..];
  }

  /** The `startOrder` in effect at entry `i`, counted from the last header
      before it: one past that header's order, or `start` when there is none. */
  function SectionStartFrom(s: seq<Dict>, start: int, i: nat): int
    requires i <= |s|
  {
    if i == 0 then start
    else if IsHeader(TextOf(s[i - 1])) then OrderKey(s[i - 1]) + 1
    else SectionStartFrom(s, start, i - 1)
  }

  function SectionStart(s: seq<Dict>, i: nat): int
    requires i <= |s|
  {
    SectionStartFrom(s, 0, i)
  }

  lemma {:induction false} SectionStartShift(s: seq<Dict>, start: int, i: nat)
    requires 1 <= i <= |s|
    ensures SectionStartFrom(s[1..], SectionStartFrom(s, start, 1), i - 1) == SectionStartFrom(s, start, i)
  {
    if i > 1 {
      SectionStartShift(s, start, i - 1);
      assert s[1..][i - 2] == s[i - 1];
    }
  }

  /** The scan agrees with the closed form: it succeeds exactly when every
      entry is readable, yields one piece per entry, a header verbatim, and any
      other text numbered from the last header before it. */
  lemma {:induction false} NumberFromPieces(s: seq<Dict>, start: int)
    ensures NumberFrom(s, start).Ok? <==> forall i :: 0 <= i < |s| ==> Readable(s[i])
    ensures NumberFrom(s, start).Ok? ==>
              var p := NumberFrom(s, start).value;
              && |p| == |s|
              && forall i :: 0 <= i < |s| ==>
                   p[i] == Piece(OrderKey(s[i]), TextOf(s[i]), SectionStartFrom(s, start, i))
  {
    if s != [] {
      var next := SectionStartFrom(s, start, 1);
      NumberFromPieces(s[1..], next);
      if Readable(s[0]) {
        var order, text := GetInt(s[0], "displayOrder").value, GetString(s[0], "text").value;
        assert OrderKey(s[0]) == order && TextOf(s[0]) == text;
        assert SectionStartFrom(s, start, 0) == start;
        assert next == NextStart(order, text, start);
        NumberFromAt(s, 0, start);
        assert s[0..] == s;
        ReadableTail(s);
        if NumberFrom(s, start).Ok? {
          PiecesShift(s, start, NumberFrom(s, start).value, NumberFrom(s[1..], next).value);
        }
      } else {
        NumberFromAt(s, 0, start);
        assert s[0..] == s;
      }
    }
  }

  /** The closed form for `s` from its first piece and the closed form for
      the entries after it. */
  lemma PiecesShift(s: seq<Dict>, start: int, p: seq<string>, rest: seq<string>)
    requires s != [] && |rest| == |s| - 1
    requires p == [Piece(OrderKey(s[0]), TextOf(s[0]), start)] + rest
    requires forall j :: 0 <= j < |rest| ==>
               rest[j] == Piece(OrderKey(s[1..][j]), TextOf(s[1..][j]), SectionStartFrom(s[1..], SectionStartFrom(s, start, 1), j))
    ensures forall i :: 0 <= i < |s| ==> p[i] == Piece(OrderKey(s[i]), TextOf(s[i]), SectionStartFrom(s, start, i))
  {
    forall i | 0 < i < |s|
      ensures p[i] == Piece(OrderKey(s[i]), TextOf(s[i]), SectionStartFrom(s, start, i))
    {
      SectionStartShift(s, start, i);
      assert s[1..][i - 1] == s[i] && p[i] == rest[i - 1];
    }
  }

  /** With a readable first entry, every entry is readable exactly when every
      entry after the first is. */
  lemma ReadableTail(s: seq<Dict>)
    requires s != [] && Readable(s[0])
    ensures (forall i :: 0 <= i < |s| ==> Readable(s[i])) <==> (forall j :: 0 <= j < |s[1..]| ==> Readable(s[1..][j]))
  {
    if forall j :: 0 <= j < |s[1..]| ==> Readable(s[1..][j]) {
      forall i | 0 < i < |s| ensures Readable(s[i]) {
        assert s[i] == s[1..][i - 1];
      }
    }
  }

  lemma SameEntries(list: seq<Dict>)
    ensures forall d :: d in list <==> d in SortByOrder(list)
  {
    var sorted := SortByOrder(list);
    assert forall d :: d in list <==> d in multiset(list);
    assert forall d :: d in sorted <==> d in multiset(sorted);
  }

  lemma ReadableSortedFromList(list: seq<Dict>)
    requires forall d :: d in list ==> Readable(d)
    ensures forall i :: 0 <= i < |SortByOrder(list)| ==> Readable(SortByOrder(list)[i])
  {
    var sorted := SortByOrder(list);
    SameEntries(list);
    forall i | 0 <= i < |sorted| ensures Readable(sorted[i]) {
      assert sorted[i] in sorted;
    }
  }

  lemma ReadableListFromSorted(list: seq<Dict>)
    requires forall i :: 0 <= i < |SortByOrder(list)| ==> Readable(SortByOrder(list)[i])
    ensures forall d :: d in list ==> Readable(d)
  {
    var sorted := SortByOrder(list);
    SameEntries(list);
    forall d | d in list ensures Readable(d) {
      var i :| 0 <= i < |sorted| && sorted[i] == d;
    }
  }

  /** `extractDirections` succeeds exactly when `Direction` is a list whose
      every entry has an `Int` order and a `String` text. */
  lemma DirectionsSucceed(obj: Dict)
    ensures DirectionsOf(obj).Ok? <==>
              GetList(obj, "Direction").Some? &&
              forall d :: d in GetList(obj, "Direction").value ==> Readable(d)
  {
    if GetList(obj, "Direction").Some? {
      var list := GetList(obj, "Direction").value;
      var sorted := SortByOrder(list);
      NumberFromPieces(sorted, 0);
      if forall d :: d in list ==> Readable(d) {
        ReadableSortedFromList(list);
        assert Orderable(list) by {
          assert forall i :: 0 <= i < |list| ==> list[i] in list;
        }
        assert NumberFrom(sorted, 0).Ok?;
        assert DirectionsOf(obj).Ok?;
      } else {
        if forall i :: 0 <= i < |sorted| ==> Readable(sorted[i]) {
          ReadableListFromSorted(list);
        }
        assert NumberFrom(sorted, 0).Err?;
        assert DirectionsOf(obj).Err?;
      }
    }
  }

  /** When it succeeds, `extractDirections` joins by a blank line one piece per
      entry, in ascending order: a header verbatim, any other text numbered
      from the last header before it. */
  lemma DirectionsPieces(obj: Dict)
    requires DirectionsOf(obj).Ok?
    ensures var sorted := SortByOrder(GetList(obj, "Direction").value);
            var pieces := NumberFrom(sorted, 0).value;
            && DirectionsOf(obj).value == Join(pieces, "\n\n")
            && |pieces| == |sorted|
            && forall i :: 0 <= i < |sorted| ==>
                 pieces[i] == Piece(OrderKey(sorted[i]), TextOf(sorted[i]), SectionStart(sorted, i))
  {
    NumberFromPieces(SortByOrder(GetList(obj, "Direction").value), 0);
  }

  /** Without a header before it, an entry is numbered `order + 1`: gaps in
      `displayOrder` are not closed up. */
  lemma {:induction false} NoHeaderNoReset(s: seq<Dict>, i: nat)
    requires i <= |s|
    requires forall j :: 0 <= j < i ==> !IsHeader(TextOf(s[j]))
    ensures SectionStart(s, i) == 0
  {
    if i > 0 {
      NoHeaderNoReset(s, i - 1);
    }
  }

  /** After a header at position `h`, an entry is numbered from one past the
      header's order, until the next header. */
  lemma {:induction false} HeaderResets(s: seq<Dict>, h: nat, i: nat)
    requires h < i <= |s| && IsHeader(TextOf(s[h]))
    requires forall j :: h < j < i ==> !IsHeader(TextOf(s[j]))
    ensures SectionStart(s, i) == OrderKey(s[h]) + 1
  {
    if i > h + 1 {
      HeaderResets(s, h, i - 1);
    }
  }

  function Entry(order: int, text: string): (d: Dict)
    ensures GetInt(d, "displayOrder") == Some(order) && GetString(d, "text") == Some(text)
  {
    map["displayOrder" := Int(order), "text" := Str(text)]
  }

  lemma NumberFromCons(order: int, text: string, rest: seq<Dict>, start: int)
    ensures NumberFrom([Entry(order, text)] + rest, start)
            == Prepend([Piece(order, text, start)], NumberFrom(rest, NextStart(order, text, start)))
  {
    assert ([Entry(order, text)] + rest)[1..] == rest;
  }

  /** The last two entries of the example below. */
  lemma GapTail()
    ensures NumberFrom([Entry(6, "b"), Entry(10, "c")], 0) == Ok(["7. b", "11. c"])
  {
    var c := [Entry(10, "c")];
    NumberFromCons(10, "c", [], 0);
    assert Piece(10, "c", 0) == "11. c" && [Entry(10, "c")] + [] == c;
    assert NumberFrom([], NextStart(10, "c", 0)) == Ok([]) && ["11. c"] + [] == ["11. c"];
    NumberFromCons(6, "b", c, 0);
    assert Piece(6, "b", 0) == "7. b" && [Entry(6, "b")] + c == [Entry(6, "b"), Entry(10, "c")];
    assert NextStart(6, "b", 0) == 0 && ["7. b"] + ["11. c"] == ["7. b", "11. c"];
  }

  /** Orders 5, 6 and 10 without a header are numbered 6, 7 and 11. */
  lemma GapsAreNotCompacted()
    ensures NumberFrom([Entry(5, "a"), Entry(6, "b"), Entry(10, "c")], 0) == Ok(["6. a", "7. b", "11. c"])
  {
    var bc := [Entry(6, "b"), Entry(10, "c")];
    GapTail();
    NumberFromCons(5, "a", bc, 0);
    assert NextStart(5, "a", 0) == 0 && ["6. a"] + ["7. b", "11. c"] == ["6. a", "7. b", "11. c"];
    assert Piece(5, "a", 0) == "6. a" && [Entry(5, "a")] + bc == [Entry(5, "a"), Entry(6, "b"), Entry(10, "c")];
  }

  /** The second section of the example below, numbered while the first
      header's count is still in force. */
  lemma SecondSection()
    ensures NumberFrom([Entry(3, "Sauce:"), Entry(4, "Stir")], 1) == Ok(["Sauce:", "1. Stir"])
  {
    var s4 := [Entry(4, "Stir")];
    NumberFromCons(4, "Stir", [], 4);
    assert Piece(4, "Stir", 4) == "1. Stir" && [Entry(4, "Stir")] + [] == s4;
    assert NumberFrom([], NextStart(4, "Stir", 4)) == Ok([]) && ["1. Stir"] + [] == ["1. Stir"];
    assert NumberFrom(s4, 4) == Ok(["1. Stir"]);
    NumberFromCons(3, "Sauce:", s4, 1);
    assert Piece(3, "Sauce:", 1) == "Sauce:" && NextStart(3, "Sauce:", 1) == 4;
    assert ["Sauce:"] + ["1. Stir"] == ["Sauce:", "1. Stir"];
    assert [Entry(3, "Sauce:")] + s4 == [Entry(3, "Sauce:"), Entry(4, "Stir")];
  }

  /** The end of the first section of the example below, followed by the
      second section. */
  lemma FirstSectionEnd()
    ensures NumberFrom([Entry(2, "Knead"), Entry(3, "Sauce:"), Entry(4, "Stir")], 1)
            == Ok(["2. Knead", "Sauce:", "1. Stir"])
  {
    var s3 := [Entry(3, "Sauce:"), Entry(4, "Stir")];
    SecondSection();
    NumberFromCons(2, "Knead", s3, 1);
    assert Piece(2, "Knead", 1) == "2. Knead" && NextStart(2, "Knead", 1) == 1;
    assert ["2. Knead"] + ["Sauce:", "1. Stir"] == ["2. Knead", "Sauce:", "1. Stir"];
    assert [Entry(2, "Knead")] + s3 == [Entry(2, "Knead"), Entry(3, "Sauce:"), Entry(4, "Stir")];
  }

  /** The first section of the example below after its header. */
  lemma FirstSectionBody()
    ensures NumberFrom([Entry(1, "Mix"), Entry(2, "Knead"), Entry(3, "Sauce:"), Entry(4, "Stir")], 1)
            == Ok(["1. Mix", "2. Knead", "Sauce:", "1. Stir"])
  {
    var s2 := [Entry(2, "Knead"), Entry(3, "Sauce:"), Entry(4, "Stir")];
    assert [Entry(1, "Mix")] + s2 == [Entry(1, "Mix"), Entry(2, "Knead"), Entry(3, "Sauce:"), Entry(4, "Stir")];
    FirstSectionEnd();
    NumberFromCons(1, "Mix", s2, 1);
    assert Piece(1, "Mix", 1) == "1. Mix" && NextStart(1, "Mix", 1) == 1;
    assert ["1. Mix"] + ["2. Knead", "Sauce:", "1. Stir"] == ["1. Mix", "2. Knead", "Sauce:", "1. Stir"];
  }

  /** Each header restarts the count at the entry after it. */
  lemma SectionsRestartAtOne()
    ensures NumberFrom([Entry(0, "Dough:"), Entry(1, "Mix"), Entry(2, "Knead"), Entry(3, "Sauce:"), Entry(4, "Stir")], 0)
            == Ok(["Dough:", "1. Mix", "2. Knead", "Sauce:", "1. Stir"])
  {
    var s1 := [Entry(1, "Mix"), Entry(2, "Knead"), Entry(3, "Sauce:"), Entry(4, "Stir")];
    assert [Entry(0, "Dough:")] + s1 == [Entry(0, "Dough:"), Entry(1, "Mix"), Entry(2, "Knead"), Entry(3, "Sauce:"), Entry(4, "Stir")];
    FirstSectionBody();
    NumberFromCons(0, "Dough:", s1, 0);
    assert Piece(0, "Dough:", 0) == "Dough:" && NextStart(0, "Dough:", 0) == 1;
    assert ["Dough:"] + ["1. Mix", "2. Knead", "Sauce:", "1. Stir"] == ["Dough:", "1. Mix", "2. Knead", "Sauce:", "1. Stir"];
  }
}
