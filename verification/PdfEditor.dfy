/**
 Page selection, rotation and redaction of scripts/pdf_editor.py. A page is an object with its
 content, size, rotation and redactions; copying a page and selecting pages do what the PDF
 library documents.
 */
module PdfEditor {
  import opened Wrappers

  // Values

  datatype Rect = Rect(x0: real, y0: real, x1: real, y1: real)

  /** What a page is, apart from its identity. Redaction rectangles are in unrotated coordinates. */
  datatype View = View(content: string, width: real, height: real, rotation: int,
                       annots: seq<Rect>, redacted: seq<Rect>)

  /** A JSON value where the script wants an integer. */
  datatype Whole = Whole(n: int) | NotWhole

  /** A JSON value where the script wants a finite number. */
  datatype Coord = Finite(v: real) | NotFinite

  /** A redaction's rectangle: a list of four values, or something else. */
  datatype Area = Area(x: Coord, y: Coord, w: Coord, h: Coord) | NoArea

  datatype Redaction = Redaction(page: Whole, area: Area)

  /** One item of the rotations dictionary; None where int() would raise. */
  datatype Turn = Turn(position: Option<int>, angle: Option<int>)

  datatype EditError =
    | InvalidPage | InvalidNumber
    | InvalidRectangle | InvalidRedactionPage | InvalidCoordinates | EmptyRectangle | OutsidePage
    | CombinedRedactions

  // Pages

  predicate ValidPages(pages: seq<Whole>, n: nat) {
    forall i :: 0 <= i < |pages| ==> pages[i].Whole? && 1 <= pages[i].n <= n
  }

  /** Output page k shows source page pages[k], counted from 1; no selection keeps all. */
  function Selected(vs: seq<View>, pages: seq<Whole>): (r: seq<View>)
    requires ValidPages(pages, |vs|)
  {
    if pages == [] then vs
    else seq(|pages|, k requires 0 <= k < |pages| => vs[pages[k].n - 1])
  }

  // Rotations

  predicate ValidAngle(angle: int) {
    angle == 90 || angle == 180 || angle == 270
  }

  predicate Numeric(turns: seq<Turn>) {
    forall i :: 0 <= i < |turns| ==> turns[i].position.Some? && turns[i].angle.Some?
  }

  /** How far one item turns output page k, counted from 0. */
  function TurnOf(t: Turn, k: int): int {
    if t.position == Some(k + 1) && t.angle.Some? && ValidAngle(t.angle.value) then t.angle.value else 0
  }

  function TotalTurn(turns: seq<Turn>, k: int): int {
    if turns == [] then 0 else TotalTurn(turns[..|turns| - 1], k) + TurnOf(turns[|turns| - 1], k)
  }

  function Rotated(vs: seq<View>, turns: seq<Turn>): seq<View> {
    seq(|vs|, k requires 0 <= k < |vs| => vs[k].(rotation := (vs[k].rotation + TotalTurn(turns, k)) % 360))
  }

  /** The library reports rotations in [0, 360). */
  predicate Upright(vs: seq<View>) {
    forall k :: 0 <= k < |vs| ==> 0 <= vs[k].rotation < 360
  }

  lemma {:induction false} TotalTurnRemove(turns: seq<Turn>, i: nat, k: int)
    requires i < |turns|
    ensures TotalTurn(turns, k) == TotalTurn(turns[..i] + turns[i + 1..], k) + TurnOf(turns[i], k)
  {
    var n := |turns| - 1;
    if i == n {
      assert turns[..i] + turns[i + 1..] == turns[..n];
    } else {
      TotalTurnRemove(turns[..n], i, k);
      var rest := turns[..i] + turns[i + 1..];
      assert rest[..|rest| - 1] == turns[..n][..i] + turns[..n][i + 1..];
      assert rest[|rest| - 1] == turns[n];
    }
  }

  /** The order of the dictionary does not matter. */
  lemma {:induction false} RotationIsOrderFree(vs: seq<View>, a: seq<Turn>, b: seq<Turn>)
    requires multiset(a) == multiset(b)
    ensures Rotated(vs, a) == Rotated(vs, b)
  {
    forall k { TotalTurnOrderFree(a, b, k); }
  }

  lemma {:induction false} TotalTurnOrderFree(a: seq<Turn>, b: seq<Turn>, k: int)
    requires multiset(a) == multiset(b)
    ensures TotalTurn(a, k) == TotalTurn(b, k)
    decreases |a|
  {
    assert |a| == |multiset(a)| == |multiset(b)| == |b|;
    if a != [] {
      var n := |a| - 1;
      assert a == a[..n] + [a[n]];
      assert a[n] in multiset(b);
      var i :| 0 <= i < |b| && b[i] == a[n];
      var rest := b[..i] + b[i + 1..];
      MultisetRemove(b, i);
      MultisetRemove(a, n);
      assert a[..n] + a[n + 1..] == a[..n];
      TotalTurnRemove(b, i, k);
      TotalTurnOrderFree(a[..n], rest, k);
    }
  }

  /** The turn in numbers: only 90, 180 and 270 for this place count, each as often as it is asked for. */
  lemma {:induction false} TurnsAddUp(turns: seq<Turn>, k: int)
    ensures var asked := multiset(turns);
            TotalTurn(turns, k) == 90 * asked[Turn(Some(k + 1), Some(90))] + 180 * asked[Turn(Some(k + 1), Some(180))]
                                   + 270 * asked[Turn(Some(k + 1), Some(270))]
  {
    if turns != [] {
      var front, last := turns[..|turns| - 1], turns[|turns| - 1];
      TurnsAddUp(front, k);
      assert turns == front + [last];
      assert multiset(turns) == multiset(front) + multiset{last};
    }
  }

  lemma TurnFurther(x: int, angle: int)
    ensures (x % 360 + angle) % 360 == (x + angle) % 360
  {
  }

  /** One item more turns at most one page. */
  lemma RotatedStep(vs: seq<View>, turns: seq<Turn>, t: Turn)
    requires t.position.Some? && t.angle.Some?
    ensures var (index, angle) := (t.position.value - 1, t.angle.value);
            var r := Rotated(vs, turns);
            Rotated(vs, turns + [t]) ==
              if ValidAngle(angle) && 0 <= index < |vs|
              then r[index := r[index].(rotation := (r[index].rotation + angle) % 360)] else r
  {
    assert (turns + [t])[..|turns|] == turns;
    forall k | 0 <= k < |vs|
      ensures ((vs[k].rotation + TotalTurn(turns, k)) % 360 + TurnOf(t, k)) % 360
              == (vs[k].rotation + TotalTurn(turns + [t], k)) % 360
    {
      TurnFurther(vs[k].rotation + TotalTurn(turns, k), TurnOf(t, k));
    }
  }

  // Redactions

  /** The size of the page as it is displayed. */
  function DisplayedSize(v: View): (real, real) {
    if v.rotation % 360 == 90 || v.rotation % 360 == 270 then (v.height, v.width) else (v.width, v.height)
  }

  /** From displayed to unrotated coordinates. */
  function Derotate(v: View, r: Rect): Rect {
    match v.rotation % 360
    case 90 => Rect(r.y0, v.height - r.x1, r.y1, v.height - r.x0)
    case 180 => Rect(v.width - r.x1, v.height - r.y1, v.width - r.x0, v.height - r.y0)
    case 270 => Rect(v.width - r.y1, r.x0, v.width - r.y0, r.x1)
    case _ => r
  }

  /** Where a rectangle of the page is displayed. */
  function Display(v: View, r: Rect): Rect {
    match v.rotation % 360
    case 90 => Rect(v.height - r.y1, r.x0, v.height - r.y0, r.x1)
    case 180 => Rect(v.width - r.x1, v.height - r.y1, v.width - r.x0, v.height - r.y0)
    case 270 => Rect(r.y0, v.width - r.x1, r.y1, v.width - r.x0)
    case _ => r
  }

  /** Turning the page further turns the displayed page a quarter clockwise: what was on the left is on top. */
  lemma QuarterTurn(v: View, r: Rect)
    requires v.rotation in {0, 90, 180, 270}
    ensures var w := v.(rotation := (v.rotation + 90) % 360);
            var (d, t, height) := (Display(v, r), Display(w, r), DisplayedSize(v).1);
            && t == Rect(height - d.y1, d.x0, height - d.y0, d.x1)
            && DisplayedSize(w) == (DisplayedSize(v).1, DisplayedSize(v).0)
    ensures v.rotation == 0 ==> Display(v, r) == r && DisplayedSize(v) == (v.width, v.height)
  {
  }

  /** The redacted area, displayed, is the area that was asked for. */
  lemma RedactionHitsItsArea(v: View, r: Rect)
    ensures Display(v, Derotate(v, r)) == r && Derotate(v, Display(v, r)) == r
  {
  }

  predicate AllFinite(a: Area) {
    a.Area? && a.x.Finite? && a.y.Finite? && a.w.Finite? && a.h.Finite?
  }

  /** The rectangle asked for; `fl` is how the script's floating-point sums are rounded. */
  function Requested(fl: real -> real, r: Redaction): Rect
    requires AllFinite(r.area)
  {
    var Area(x, y, w, h) := r.area;
    Rect(x.v, y.v, fl(x.v + w.v), fl(y.v + h.v))
  }

  ghost predicate Monotone(fl: real -> real) {
    forall a, b :: a <= b ==> fl(a) <= fl(b)
  }

  predicate Inside(r: Rect, x: real, y: real) {
    r.x0 <= x <= r.x1 && r.y0 <= y <= r.y1
  }

  predicate Within(r: Rect, x: real, y: real) {
    r.x0 < x < r.x1 && r.y0 < y < r.y1
  }

  /**
   However sums are rounded, as long as that is monotone: the rectangle covers every point of the
   exact one whose coordinates are floats, and has no such point of the outside in its interior.
   */
  lemma RoundedAreaCovers(fl: real -> real, r: Redaction, x: real, y: real)
    requires AllFinite(r.area) && Monotone(fl) && fl(x) == x && fl(y) == y
    ensures Inside(Requested(z => z, r), x, y) ==> Inside(Requested(fl, r), x, y)
    ensures Within(Requested(fl, r), x, y) ==> Within(Requested(z => z, r), x, y)
  {
    var Area(left, top, w, h) := r.area;
    var right, bottom := left.v + w.v, top.v + h.v;
    assert x <= right ==> fl(x) <= fl(right);
    assert right <= x ==> fl(right) <= fl(x);
    assert y <= bottom ==> fl(y) <= fl(bottom);
    assert bottom <= y ==> fl(bottom) <= fl(y);
  }

  /** page.rect.intersects: an empty rectangle, where a sum came out no larger, crosses nothing. */
  predicate Crosses(r: Rect, width: real, height: real) {
    && r.x0 < r.x1 && r.y0 < r.y1
    && r.x0 < width && 0.0 < r.x1 && r.y0 < height && 0.0 < r.y1
  }

  /** A rectangle crosses the displayed page exactly when it is not empty and, turned back, meets the page. */
  lemma CrossesExactlyWhen(v: View, r: Rect)
    ensures var (width, height) := DisplayedSize(v);
            var u := Derotate(v, r);
            Crosses(r, width, height) <==>
              && r.x0 < r.x1 && r.y0 < r.y1
              && u.x0 < v.width && 0.0 < u.x1 && u.y0 < v.height && 0.0 < u.y1
  {
  }

  /** The checks on one redaction, in their order. */
  function Refusal(fl: real -> real, vs: seq<View>, r: Redaction): Option<EditError> {
    if r.area.NoArea? then Some(InvalidRectangle)
    else if r.page.NotWhole? || !(0 <= r.page.n < |vs|) then Some(InvalidRedactionPage)
    else if !AllFinite(r.area) then Some(InvalidCoordinates)
    else if r.area.x.v < 0.0 || r.area.y.v < 0.0 || r.area.w.v <= 0.0 || r.area.h.v <= 0.0 then Some(EmptyRectangle)
    else
      var (width, height) := DisplayedSize(vs[r.page.n]);
      if Crosses(Requested(fl, r), width, height) then None else Some(OutsidePage)
  }

  /** A redaction that is not of numbers on a page of the document is refused for the first thing that is wrong. */
  lemma MalformedIsRefused(fl: real -> real, vs: seq<View>, r: Redaction)
    ensures Refusal(fl, vs, r) == Some(InvalidRectangle) <==> r.area == NoArea
    ensures Refusal(fl, vs, r) == Some(InvalidRedactionPage) <==>
              r.area != NoArea && (r.page == NotWhole || r.page.n < 0 || r.page.n >= |vs|)
    ensures Refusal(fl, vs, r) == Some(InvalidCoordinates) <==>
              && r.area != NoArea && r.page != NotWhole && 0 <= r.page.n < |vs|
              && NotFinite in [r.area.x, r.area.y, r.area.w, r.area.h]
  {
    hide DisplayedSize, Crosses;
  }

  /** One of numbers is accepted exactly when its corners are in order and, turned back, it meets the page. */
  lemma AcceptedExactlyWhen(fl: real -> real, vs: seq<View>, n: nat, x: real, y: real, w: real, h: real)
    requires n < |vs|
    ensures var r := Redaction(Whole(n), Area(Finite(x), Finite(y), Finite(w), Finite(h)));
            var u := Derotate(vs[n], Rect(x, y, fl(x + w), fl(y + h)));
            && (Refusal(fl, vs, r) == Some(EmptyRectangle) <==> x < 0.0 || y < 0.0 || w <= 0.0 || h <= 0.0)
            && (Refusal(fl, vs, r) == None <==>
                  && 0.0 <= x < fl(x + w) && 0.0 <= y < fl(y + h) && 0.0 < w && 0.0 < h
                  && u.x0 < vs[n].width && 0.0 < u.x1 && u.y0 < vs[n].height && 0.0 < u.y1)
            && Refusal(fl, vs, r) in {None, Some(EmptyRectangle), Some(OutsidePage)}
  {
    hide DisplayedSize, Crosses, Derotate;
    CrossesExactlyWhen(vs[n], Rect(x, y, fl(x + w), fl(y + h)));
  }

  predicate Redactable(fl: real -> real, vs: seq<View>, rs: seq<Redaction>) {
    forall i :: 0 <= i < |rs| ==> Refusal(fl, vs, rs[i]).None?
  }

  /** What the first redaction that is refused is refused for. */
  function FirstRefusal(fl: real -> real, vs: seq<View>, rs: seq<Redaction>): Option<EditError> {
    if rs == [] then None
    else
      var before := FirstRefusal(fl, vs, rs[..|rs| - 1]);
      if before.Some? then before else Refusal(fl, vs, rs[|rs| - 1])
  }

  lemma {:induction false} FirstRefusalDecides(fl: real -> real, vs: seq<View>, rs: seq<Redaction>, n: nat)
    requires n <= |rs| && Redactable(fl, vs, rs[..n])
    ensures n == |rs| ==> FirstRefusal(fl, vs, rs) == None
    ensures n < |rs| && Refusal(fl, vs, rs[n]).Some? ==> FirstRefusal(fl, vs, rs) == Refusal(fl, vs, rs[n])
    decreases |rs|
  {
    hide Refusal;
    if rs != [] {
      var k := |rs| - 1;
      assert Min(n, k) == k || Min(n, k) == n;
      assert rs[..k][..Min(n, k)] == rs[..Min(n, k)];
      FirstRefusalDecides(fl, vs, rs[..k], Min(n, k));
      assert n == |rs| ==> Refusal(fl, vs, rs[..n][k]).None?;
    }
  }

  /** The rectangles asked for page k, in its unrotated coordinates. */
  function AreasOf(fl: real -> real, vs: seq<View>, rs: seq<Redaction>, k: nat): seq<Rect>
    requires k < |vs| && Redactable(fl, vs, rs)
  {
    if rs == [] then []
    else
      var last := rs[|rs| - 1];
      AreasOf(fl, vs, rs[..|rs| - 1], k) + if last.page.n == k then [Derotate(vs[k], Requested(fl, last))] else []
  }

  /** Marking and applying: a page that is marked loses its marks and is redacted there. */
  function RedactPage(v: View, areas: seq<Rect>): View {
    if areas == [] then v else v.(annots := [], redacted := v.redacted + v.annots + areas)
  }

  function Redacted(fl: real -> real, vs: seq<View>, rs: seq<Redaction>): seq<View>
    requires Redactable(fl, vs, rs)
  {
    seq(|vs|, k requires 0 <= k < |vs| => RedactPage(vs[k], AreasOf(fl, vs, rs, k)))
  }

  // Objects

  class Page {
    const content: string
    const width: real
    const height: real
    var rotation: int
    var annots: seq<Rect>
    var redacted: seq<Rect>

    constructor (v: View)
      ensures Look() == v
    {
      content, width, height, rotation, annots, redacted :=
        v.content, v.width, v.height, v.rotation, v.annots, v.redacted;
    }

    function Look(): View
      reads this
    {
      View(content, width, height, rotation, annots, redacted)
    }

    method SetRotation(rotation: int)
      modifies `rotation
      ensures this.rotation == rotation
    {
      this.rotation := rotation;
    }

    method AddRedactAnnot(r: Rect)
      modifies `annots
      ensures annots == old(annots) + [r]
    {
      annots := annots + [r];
    }

    method ApplyRedactions()
      modifies `annots, `redacted
      ensures annots == [] && redacted == old(redacted + annots)
    {
      annots, redacted := [], redacted + annots;
    }
  }

  class Document {
    var pages: seq<Page>

    /** No two places of the document hold the same page object. */
    ghost predicate Valid()
      reads this
    {
      forall i, j :: 0 <= i < j < |pages| ==> pages[i] != pages[j]
    }

    function Views(): (vs: seq<View>)
      reads this, pages
    {
      seq(|pages|, k requires 0 <= k < |pages| reads this, pages => pages[k].Look())
    }

    /** fullcopy_page: append an independent copy. */
    method FullcopyPage(index: nat)
      requires index < |pages|
      modifies this
      ensures |pages| == |old(pages)| + 1 && pages[..|old(pages)|] == old(pages)
      ensures var copy := pages[|old(pages)|];
              fresh(copy) && copy.Look() == old(pages[index].Look())
    {
      var copy := new Page(pages[index].Look());
      pages := pages + [copy];
    }

    /** select: keep exactly the pages at these places, in this order. */
    method Select(selection: seq<nat>)
      requires forall k :: 0 <= k < |selection| ==> selection[k] < |pages|
      modifies this
      ensures |pages| == |selection| && forall k :: 0 <= k < |pages| ==> pages[k] == old(pages)[selection[k]]
    {
      var current := pages;
      pages := seq(|selection|, k requires 0 <= k < |selection| => current[selection[k]]);
    }
  }

  // The script

  /**
   Selection. A page chosen again is copied first, so that every place gets an object of its own
   and what is done to one place leaves the others alone.
   */
  method ApplyPages(doc: Document, pages: seq<Whole>) returns (err: Option<EditError>)
    requires doc.Valid()
    modifies doc
    ensures err == if ValidPages(pages, |old(doc.pages)|) then None else Some(InvalidPage)
    ensures err.Some? ==> doc.pages == old(doc.pages)
    ensures err.None? ==>
              && doc.Valid()
              && doc.Views() == Selected(old(doc.Views()), pages)
              && forall k :: 0 <= k < |doc.pages| ==> doc.pages[k] in old(doc.pages) || fresh(doc.pages[k])
  {
    if pages == [] {
      return None;
    }
    if !ValidPages(pages, |doc.pages|) {
      return Some(InvalidPage);
    }
    ghost var views := doc.Views();
    var wanted: seq<nat> := seq(|pages|, k requires 0 <= k < |pages| => pages[k].n - 1);
    var selection, origin := CopyRepeats(doc, wanted);
    SelectPlaces(doc, selection, old(doc.pages), origin);
    assert doc.Views() == Selected(views, pages);
    return None;
  }

  /** The document is its source pages and copies; page i comes from source page origin[i]. */
  ghost predicate Copied(doc: Document, source: seq<Page>, origin: seq<nat>)
    reads doc, doc.pages, source
  {
    && doc.Valid()
    && |source| <= |doc.pages| == |origin| && doc.pages[..|source|] == source
    && (forall i :: 0 <= i < |origin| ==> origin[i] < |source| && doc.pages[i].Look() == source[origin[i]].Look())
    && (forall i :: 0 <= i < |source| ==> origin[i] == i)
  }

  lemma NothingCopied(doc: Document)
    requires doc.Valid()
    ensures Copied(doc, doc.pages, seq(|doc.pages|, i => i))
  {
  }

  lemma CopiedPlaces(doc: Document, source: seq<Page>, origin: seq<nat>)
    requires Copied(doc, source, origin)
    ensures |source| <= |doc.pages| == |origin| && forall i :: 0 <= i < |source| ==> origin[i] == i
  {
  }

  method AddCopy(doc: Document, index: nat, ghost source: seq<Page>, ghost origin: seq<nat>)
    requires Copied(doc, source, origin) && index < |source|
    modifies doc
    ensures |doc.pages| == |old(doc.pages)| + 1 && doc.pages[..|old(doc.pages)|] == old(doc.pages)
    ensures fresh(doc.pages[|old(doc.pages)|])
    ensures Copied(doc, source, origin + [index])
  {
    doc.FullcopyPage(index);
  }

  method SelectPlaces(doc: Document, selection: seq<nat>, ghost source: seq<Page>, ghost origin: seq<nat>)
    requires Copied(doc, source, origin)
    requires forall k :: 0 <= k < |selection| ==> selection[k] < |origin|
    requires forall j, k :: 0 <= j < k < |selection| ==> selection[j] != selection[k]
    modifies doc
    ensures doc.Valid() && |doc.pages| == |selection|
    ensures forall k :: 0 <= k < |selection| ==>
              && doc.pages[k] == old(doc.pages)[selection[k]]
              && doc.pages[k].Look() == source[origin[selection[k]]].Look()
  {
    doc.Select(selection);
  }

  /**
   The loop of apply_pages. The places returned are all different and come from the pages wanted.
   */
  method CopyRepeats(doc: Document, wanted: seq<nat>) returns (selection: seq<nat>, ghost origin: seq<nat>)
    requires doc.Valid()
    requires forall k :: 0 <= k < |wanted| ==> wanted[k] < |doc.pages|
    modifies doc
    ensures Copied(doc, old(doc.pages), origin)
    ensures forall i :: |old(doc.pages)| <= i < |doc.pages| ==> fresh(doc.pages[i])
    ensures |selection| == |wanted|
    ensures forall k :: 0 <= k < |wanted| ==> selection[k] < |origin| && origin[selection[k]] == wanted[k]
    ensures forall j, k :: 0 <= j < k < |selection| ==> selection[j] != selection[k]
  {
    hide Copied;
    ghost var source := doc.pages;
    selection := wanted;
    origin := seq(|doc.pages|, i => i);
    var seen: set<nat> := {};
    NothingCopied(doc);
    CopiedPlaces(doc, source, origin);
    for position := 0 to |selection|
      invariant |selection| == |wanted| && selection[position..] == wanted[position..]
      invariant Copied(doc, source, origin)
      invariant forall i :: |source| <= i < |doc.pages| ==> fresh(doc.pages[i])
      invariant forall k :: 0 <= k < position ==> selection[k] < |origin| && origin[selection[k]] == wanted[k]
      invariant forall k :: 0 <= k < position ==> wanted[k] in seen
      invariant forall j, k :: 0 <= j < k < position ==> selection[j] != selection[k]
    {
      var index := selection[position];
      assert index == wanted[position];
      if index in seen {
        CopiedPlaces(doc, source, origin);
        AddCopy(doc, index, source, origin);
        origin := origin + [index];
        selection := selection[position := |doc.pages| - 1];
      } else {
        CopiedPlaces(doc, source, origin);
        assert forall k :: 0 <= k < position ==> wanted[k] != index && selection[k] != index;
      }
      seen := seen + {index};
    }
  }

  lemma RotatedNone(vs: seq<View>)
    requires Upright(vs)
    ensures Rotated(vs, []) == vs
  {
  }

  /** Rotation, item by item of the dictionary. */
  method ApplyRotations(doc: Document, turns: seq<Turn>) returns (err: Option<EditError>)
    requires doc.Valid()
    requires Upright(doc.Views())
    modifies doc.pages
    ensures err == if Numeric(turns) then None else Some(InvalidNumber)
    ensures err.None? ==> doc.Views() == Rotated(old(doc.Views()), turns)
  {
    hide Rotated, TotalTurn;
    ghost var before := doc.Views();
    RotatedNone(before);
    assert turns[..0] == [];
    for i := 0 to |turns|
      invariant Numeric(turns[..i])
      invariant doc.Views() == Rotated(before, turns[..i])
    {
      assert turns[..i + 1] == turns[..i] + [turns[i]];
      if turns[i].position.None? || turns[i].angle.None? {
        return Some(InvalidNumber);
      }
      RotatedStep(before, turns[..i], turns[i]);
      var index, angle := turns[i].position.value - 1, turns[i].angle.value;
      if !ValidAngle(angle) {
        continue;
      }
      if 0 <= index < |doc.pages| {
        var page := doc.pages[index];
        ghost var was := doc.Views();
        page.SetRotation((page.rotation + angle) % 360);
        assert doc.Views() == was[index := page.Look()];
      }
    }
    assert turns[..|turns|] == turns;
    return None;
  }

  /** The pages with their marks, before any is applied. */
  function Marked(fl: real -> real, vs: seq<View>, rs: seq<Redaction>): seq<View>
    requires Redactable(fl, vs, rs)
  {
    seq(|vs|, k requires 0 <= k < |vs| => vs[k].(annots := vs[k].annots + AreasOf(fl, vs, rs, k)))
  }

  lemma MarkedStep(fl: real -> real, vs: seq<View>, rs: seq<Redaction>, r: Redaction)
    requires Redactable(fl, vs, rs)
    ensures Refusal(fl, Marked(fl, vs, rs), r) == Refusal(fl, vs, r)
    ensures Refusal(fl, vs, r).None? ==>
              && Redactable(fl, vs, rs + [r])
              && var m := Marked(fl, vs, rs);
                 var k := r.page.n;
                 Marked(fl, vs, rs + [r]) == m[k := m[k].(annots := m[k].annots + [Derotate(m[k], Requested(fl, r))])]
  {
    if Refusal(fl, vs, r).None? {
      assert (rs + [r])[..|rs|] == rs;
      assert Redactable(fl, vs, rs + [r]);
      var m, m1 := Marked(fl, vs, rs), Marked(fl, vs, rs + [r]);
      var at := r.page.n;
      var area := Derotate(vs[at], Requested(fl, r));
      assert Derotate(m[at], Requested(fl, r)) == area;
      forall k | 0 <= k < |vs| ensures m1[k] == if k == at then m[k].(annots := m[k].annots + [area]) else m[k] {
        assert AreasOf(fl, vs, rs + [r], k) == AreasOf(fl, vs, rs, k) + if at == k then [area] else [];
        assert vs[k].annots + (AreasOf(fl, vs, rs, k) + [area]) == vs[k].annots + AreasOf(fl, vs, rs, k) + [area];
        assert AreasOf(fl, vs, rs, k) + [] == AreasOf(fl, vs, rs, k);
      }
      assert m1 == m[at := m[at].(annots := m[at].annots + [area])];
    }
  }

  lemma MarkedNone(fl: real -> real, vs: seq<View>)
    ensures Redactable(fl, vs, []) && Marked(fl, vs, []) == vs
  {
    assert forall k :: 0 <= k < |vs| ==> vs[k].annots + AreasOf(fl, vs, [], k) == vs[k].annots;
  }

  /** Applying the marks of a page that has some makes it the redacted page; others are that already. */
  lemma MarkedThenApplied(fl: real -> real, vs: seq<View>, rs: seq<Redaction>, k: nat)
    requires k < |vs| && Redactable(fl, vs, rs)
    ensures var m := Marked(fl, vs, rs)[k];
            Redacted(fl, vs, rs)[k] == if k in Pages(rs) then Applied(m) else m
  {
    PagesHaveAreas(fl, vs, rs, k);
    var areas := AreasOf(fl, vs, rs, k);
    assert vs[k].redacted + (vs[k].annots + areas) == vs[k].redacted + vs[k].annots + areas;
    assert vs[k].annots + [] == vs[k].annots;
  }

  /** The pages asked for. */
  function Pages(rs: seq<Redaction>): set<int> {
    set i | 0 <= i < |rs| && rs[i].page.Whole? :: rs[i].page.n
  }

  lemma AcceptedHasPage(fl: real -> real, vs: seq<View>, r: Redaction)
    requires Refusal(fl, vs, r).None?
    ensures r.page.Whole? && 0 <= r.page.n < |vs| && AllFinite(r.area)
  {
  }

  lemma {:induction false} PagesHaveAreas(fl: real -> real, vs: seq<View>, rs: seq<Redaction>, k: nat)
    requires k < |vs| && Redactable(fl, vs, rs)
    ensures k in Pages(rs) <==> AreasOf(fl, vs, rs, k) != []
  {
    hide Refusal, Derotate, Requested;
    if rs != [] {
      var n := |rs| - 1;
      PagesHaveAreas(fl, vs, rs[..n], k);
      AcceptedHasPage(fl, vs, rs[n]);
      if k in Pages(rs) {
        var i :| 0 <= i < |rs| && rs[i].page.Whole? && rs[i].page.n == k;
        if i < n {
          assert rs[..n][i] == rs[i];
          assert k in Pages(rs[..n]);
        }
      }
      if k in Pages(rs[..n]) {
        var i :| 0 <= i < n && rs[..n][i].page.Whole? && rs[..n][i].page.n == k;
        assert rs[i].page.n == k;
      }
    }
  }

  /** The first loop: check every redaction and mark its page. */
  method MarkAll(fl: real -> real, doc: Document, rs: seq<Redaction>) returns (err: Option<EditError>, marked: set<int>)
    requires doc.Valid()
    modifies doc.pages
    ensures err.None? <==> Redactable(fl, old(doc.Views()), rs)
    ensures err == FirstRefusal(fl, old(doc.Views()), rs)
    ensures err.None? ==> doc.Views() == Marked(fl, old(doc.Views()), rs) && marked == Pages(rs)
  {
    marked := {};
    ghost var before := doc.Views();
    MarkedNone(fl, before);
    assert rs[..0] == [];
    for i := 0 to |rs|
      invariant Redactable(fl, before, rs[..i])
      invariant doc.Views() == Marked(fl, before, rs[..i])
      invariant marked == Pages(rs[..i])
    {
      assert rs[..i + 1] == rs[..i] + [rs[i]];
      MarkedStep(fl, before, rs[..i], rs[i]);
      FirstRefusalDecides(fl, before, rs, i);
      var refusal := Refusal(fl, doc.Views(), rs[i]);
      if refusal.Some? {
        return refusal, marked;
      }
      ghost var was := doc.Views();
      var page := doc.pages[rs[i].page.n];
      page.AddRedactAnnot(Derotate(page.Look(), Requested(fl, rs[i])));
      assert doc.Views() == was[rs[i].page.n := page.Look()];
      PagesStep(rs[..i], rs[i]);
      marked := marked + {rs[i].page.n};
    }
    assert rs[..|rs|] == rs;
    FirstRefusalDecides(fl, before, rs, |rs|);
    return None, marked;
  }

  lemma PagesStep(rs: seq<Redaction>, r: Redaction)
    requires r.page.Whole?
    ensures Pages(rs + [r]) == Pages(rs) + {r.page.n}
  {
    var all := rs + [r];
    assert all[|rs|] == r;
    forall k | k in Pages(rs) ensures k in Pages(all) {
      var i :| 0 <= i < |rs| && rs[i].page.Whole? && rs[i].page.n == k;
      assert all[i] == rs[i];
    }
  }

  lemma PagesExist(fl: real -> real, vs: seq<View>, rs: seq<Redaction>)
    requires Redactable(fl, vs, rs)
    ensures forall k :: k in Pages(rs) ==> 0 <= k < |vs|
  {
    forall k | k in Pages(rs) ensures 0 <= k < |vs| {
      var i :| 0 <= i < |rs| && rs[i].page.Whole? && rs[i].page.n == k;
      assert Refusal(fl, vs, rs[i]).None?;
    }
  }

  /** apply_redactions of the library, on one page. */
  function Applied(v: View): View {
    v.(annots := [], redacted := v.redacted + v.annots)
  }

  /** The second loop: apply the marks, page by page in any order. */
  method ApplyMarked(doc: Document, marked: set<int>)
    requires doc.Valid() && forall k :: k in marked ==> 0 <= k < |doc.pages|
    modifies doc.pages
    ensures doc.Views() == ApplyAt(old(doc.Views()), marked)
  {
    ghost var before := doc.Views();
    var todo := marked;
    while todo != {}
      invariant todo <= marked
      invariant doc.Views() == ApplyAt(before, marked - todo)
      decreases |todo|
    {
      ghost var some := SetHas(todo);
      var k :| k in todo;
      ghost var was := doc.Views();
      doc.pages[k].ApplyRedactions();
      assert doc.Views() == was[k := Applied(was[k])];
      todo := todo - {k};
    }
  }

  function ApplyAt(vs: seq<View>, marked: set<int>): seq<View> {
    seq(|vs|, k requires 0 <= k < |vs| => if k in marked then Applied(vs[k]) else vs[k])
  }

  lemma RedactedIsApplied(fl: real -> real, vs: seq<View>, rs: seq<Redaction>)
    requires Redactable(fl, vs, rs)
    ensures Redacted(fl, vs, rs) == ApplyAt(Marked(fl, vs, rs), Pages(rs))
  {
    forall k | 0 <= k < |vs| {
      MarkedThenApplied(fl, vs, rs, k);
    }
  }

  /** Redaction, in displayed coordinates. */
  method ApplyRedactions(fl: real -> real, doc: Document, rs: seq<Redaction>) returns (err: Option<EditError>)
    requires doc.Valid()
    modifies doc.pages
    ensures err.None? <==> Redactable(fl, old(doc.Views()), rs)
    ensures err == FirstRefusal(fl, old(doc.Views()), rs)
    ensures err.None? ==> doc.Views() == Redacted(fl, old(doc.Views()), rs)
  {
    ghost var before := doc.Views();
    if rs == [] {
      assert Redacted(fl, before, rs) == before;
      return None;
    }
    var marked;
    err, marked := MarkAll(fl, doc, rs);
    if err.Some? {
      return;
    }
    PagesExist(fl, before, rs);
    RedactedIsApplied(fl, before, rs);
    ApplyMarked(doc, marked);
  }

  // The whole edit

  /** The `pages` key: missing, null, or a list. */
  datatype PagesArg = Missing | Null | List(pages: seq<Whole>)

  datatype Config = Config(pages: PagesArg, turns: seq<Turn>, redactions: seq<Redaction>, sourceSpace: bool)

  function Wanted(c: Config): seq<Whole> {
    if c.pages.List? then c.pages.pages else []
  }

  function AllPages(n: nat): seq<Whole> {
    seq(n, k => Whole(k + 1))
  }

  /** Redactions in output coordinates may not be combined with anything that moves pages. */
  predicate MovesPages(c: Config, n: nat) {
    c.turns != [] || (c.pages != Missing && c.pages != List(AllPages(n)))
  }

  /** When the script saves. */
  ghost predicate Saves(fl: real -> real, vs: seq<View>, c: Config) {
    && ValidPages(Wanted(c), |vs|) && Numeric(c.turns) && Redactable(fl, vs, c.redactions)
    && (c.redactions != [] && !c.sourceSpace ==> !MovesPages(c, |vs|))
  }

  /**
   Why it does not save: redactions of the source come first, the others last, after the question
   whether they may be combined with the rest.
   */
  function Failure(fl: real -> real, vs: seq<View>, c: Config): Option<EditError> {
    var refusal := FirstRefusal(fl, vs, c.redactions);
    if c.sourceSpace && refusal.Some? then refusal
    else if !c.sourceSpace && c.redactions != [] && MovesPages(c, |vs|) then Some(CombinedRedactions)
    else if !ValidPages(Wanted(c), |vs|) then Some(InvalidPage)
    else if !Numeric(c.turns) then Some(InvalidNumber)
    else refusal
  }

  /** Redactions in output coordinates together with turns, or with any list of pages but all of them in order. */
  predicate Combines(c: Config, n: nat) {
    && c.redactions != [] && !c.sourceSpace
    && (c.turns != [] || c.pages.Null?
        || (c.pages.List? && (|c.pages.pages| != n || exists k :: 0 <= k < n && c.pages.pages[k] != Whole(k + 1))))
  }

  predicate HasBadPage(c: Config, n: nat) {
    && c.pages.List?
    && exists k :: 0 <= k < |c.pages.pages| &&
         (c.pages.pages[k] == NotWhole || c.pages.pages[k].n < 1 || c.pages.pages[k].n > n)
  }

  predicate HasBadTurn(c: Config) {
    exists k :: 0 <= k < |c.turns| && (c.turns[k].position.None? || c.turns[k].angle.None?)
  }

  /** Each failure: the first thing that is wrong in the order of the steps, and none exactly when it saves. */
  lemma FailsExactlyWhen(fl: real -> real, vs: seq<View>, c: Config)
    ensures var (failure, refusal) := (Failure(fl, vs, c), FirstRefusal(fl, vs, c.redactions));
            var first := Combines(c, |vs|) || (c.sourceSpace && refusal.Some?);
            && (failure == None <==> Saves(fl, vs, c))
            && (failure == None <==>
                  refusal == None && !Combines(c, |vs|) && !HasBadPage(c, |vs|) && !HasBadTurn(c))
            && (failure == Some(CombinedRedactions) <==> Combines(c, |vs|))
            && (failure == Some(InvalidPage) <==> !first && HasBadPage(c, |vs|))
            && (failure == Some(InvalidNumber) <==> !first && !HasBadPage(c, |vs|) && HasBadTurn(c))
            && (failure !in {None, Some(CombinedRedactions), Some(InvalidPage), Some(InvalidNumber)} ==>
                  failure == refusal)
  {
    hide Refusal;
    RefusedSomewhere(fl, vs, c.redactions);
    if c.pages.List? && |c.pages.pages| == |vs| && (forall k :: 0 <= k < |vs| ==> c.pages.pages[k] == Whole(k + 1)) {
      assert c.pages.pages == AllPages(|vs|);
    }
  }

  lemma {:induction false} RefusedSomewhere(fl: real -> real, vs: seq<View>, rs: seq<Redaction>)
    ensures FirstRefusal(fl, vs, rs).None? <==> Redactable(fl, vs, rs)
    ensures FirstRefusal(fl, vs, rs) !in {Some(CombinedRedactions), Some(InvalidPage), Some(InvalidNumber)}
  {
    if rs != [] {
      RefusedSomewhere(fl, vs, rs[..|rs| - 1]);
    }
  }

  /** What it saves: the pages redacted where they stand in the source, then selected, then rotated. */
  ghost function Edited(fl: real -> real, vs: seq<View>, c: Config): seq<View>
    requires Saves(fl, vs, c)
  {
    Rotated(Selected(Redacted(fl, vs, c.redactions), Wanted(c)), c.turns)
  }

  method Rearrange(doc: Document, c: Config) returns (err: Option<EditError>)
    requires doc.Valid() && Upright(doc.Views())
    modifies doc, doc.pages
    ensures err == if !ValidPages(Wanted(c), |old(doc.pages)|) then Some(InvalidPage)
                   else if !Numeric(c.turns) then Some(InvalidNumber) else None
    ensures err.None? ==>
              && doc.Valid()
              && doc.Views() == Rotated(Selected(old(doc.Views()), Wanted(c)), c.turns)
              && forall k :: 0 <= k < |doc.pages| ==> doc.pages[k] in old(doc.pages) || fresh(doc.pages[k])
  {
    err := ApplyPages(doc, Wanted(c));
    if err.Some? {
      return;
    }
    err := ApplyRotations(doc, c.turns);
  }

  /** main, from the opened document to the save. */
  method Edit(fl: real -> real, doc: Document, c: Config) returns (err: Option<EditError>)
    requires doc.Valid() && Upright(doc.Views())
    modifies doc, doc.pages
    ensures err.None? <==> Saves(fl, old(doc.Views()), c)
    ensures err == Failure(fl, old(doc.Views()), c)
    ensures err.None? ==> doc.Valid() && doc.Views() == Edited(fl, old(doc.Views()), c)
  {
    ghost var vs := doc.Views();
    NothingRedacted(fl, vs);
    if c.redactions != [] {
      if c.sourceSpace {
        err := ApplyRedactions(fl, doc, c.redactions);
        if err.Some? {
          return;
        }
      } else if MovesPages(c, |doc.pages|) {
        return Some(CombinedRedactions);
      }
    }
    err := Rearrange(doc, c);
    if err.Some? {
      return;
    }
    if c.redactions != [] && !c.sourceSpace {
      UnmovedPages(fl, vs, c);
      err := ApplyRedactions(fl, doc, c.redactions);
    }
  }

  lemma NothingRedacted(fl: real -> real, vs: seq<View>)
    ensures Redactable(fl, vs, []) && Redacted(fl, vs, []) == vs
  {
  }

  lemma SelectAll(vs: seq<View>, pages: seq<Whole>)
    requires pages == [] || pages == AllPages(|vs|)
    ensures ValidPages(pages, |vs|) && Selected(vs, pages) == vs
  {
  }

  /** Where nothing moves pages, redacting last is redacting first. */
  lemma UnmovedPages(fl: real -> real, vs: seq<View>, c: Config)
    requires Upright(vs) && !MovesPages(c, |vs|) && ValidPages(Wanted(c), |vs|)
    ensures Rotated(Selected(vs, Wanted(c)), c.turns) == vs
    ensures Redactable(fl, vs, c.redactions) ==>
              Rotated(Selected(Redacted(fl, vs, c.redactions), Wanted(c)), c.turns) == Redacted(fl, vs, c.redactions)
  {
    hide Rotated, Selected, AllPages, Redactable;
    SelectAll(vs, Wanted(c));
    RotatedNone(vs);
    if Redactable(fl, vs, c.redactions) {
      var rs := Redacted(fl, vs, c.redactions);
      SelectAll(rs, Wanted(c));
      RotatedNone(rs);
    }
  }

  // What every saved document is

  /** The source page, counted from 0, of output place k. */
  function Chosen(c: Config, k: nat): int
    requires c.pages.List? && c.pages.pages != [] ==> k < |c.pages.pages| && c.pages.pages[k].Whole?
  {
    if c.pages.List? && c.pages.pages != [] then c.pages.pages[k].n - 1 else k
  }

  /**
   Output place k shows the source page chosen for it, with every redaction asked for that page and
   no other that was not on the page already, turned by exactly the angles asked for that place.
   */
  lemma SavedPage(fl: real -> real, vs: seq<View>, c: Config, k: nat)
    requires Saves(fl, vs, c) && k < |Edited(fl, vs, c)|
    ensures |Edited(fl, vs, c)| == if c.pages.List? && c.pages.pages != [] then |c.pages.pages| else |vs|
    ensures var source := Chosen(c, k);
            var out := Edited(fl, vs, c)[k];
            && 0 <= source < |vs|
            && out.content == vs[source].content && out.width == vs[source].width && out.height == vs[source].height
            && out.rotation == (vs[source].rotation + TotalTurn(c.turns, k)) % 360
            && forall i :: 0 <= i < |c.redactions| && c.redactions[i].page.n == source ==>
                 Derotate(vs[source], Requested(fl, c.redactions[i])) in out.redacted
    ensures var source := Chosen(c, k);
            forall r :: r in Edited(fl, vs, c)[k].redacted ==>
              || r in vs[source].redacted + vs[source].annots
              || exists i :: 0 <= i < |c.redactions| && Asks(fl, vs[source], source, c.redactions[i], r)
  {
    hide Redacted, Edited, TotalTurn, Derotate, Asks;
    SavedPlace(fl, vs, c, k);
    PageRedactions(fl, vs, c.redactions, Chosen(c, k));
  }

  lemma PageRedactions(fl: real -> real, vs: seq<View>, rs: seq<Redaction>, k: nat)
    requires k < |vs| && Redactable(fl, vs, rs)
    ensures |Redacted(fl, vs, rs)| == |vs|
    ensures var (was, out) := (vs[k], Redacted(fl, vs, rs)[k]);
            && out.content == was.content && out.width == was.width && out.height == was.height
            && out.rotation == was.rotation
            && (forall i :: 0 <= i < |rs| && rs[i].page.n == k ==> Derotate(was, Requested(fl, rs[i])) in out.redacted)
            && forall r :: r in out.redacted ==>
                 r in was.redacted + was.annots || exists i :: 0 <= i < |rs| && Asks(fl, was, k, rs[i], r)
  {
    hide AreasOf, Derotate, Asks;
    AreasAreAsked(fl, vs, rs, k);
    forall i | 0 <= i < |rs| && rs[i].page.n == k
      ensures Derotate(vs[k], Requested(fl, rs[i])) in AreasOf(fl, vs, rs, k)
    {
      AreaIsListed(fl, vs, rs, k, i);
    }
  }

  /** A page with a redaction asked for it loses all its marks to the redactions; any other keeps both as they are. */
  lemma SavedMarks(fl: real -> real, vs: seq<View>, c: Config, k: nat)
    requires Saves(fl, vs, c) && k < |Edited(fl, vs, c)|
    ensures var source := Chosen(c, k);
            && 0 <= source < |vs|
            && var (was, out) := (vs[source], Edited(fl, vs, c)[k]);
               if exists i :: 0 <= i < |c.redactions| && c.redactions[i].page == Whole(source)
               then out.annots == [] && forall r :: r in was.redacted + was.annots ==> r in out.redacted
               else out.annots == was.annots && out.redacted == was.redacted
  {
    hide Redacted, Redactable, Edited;
    SavedPlace(fl, vs, c, k);
    PageMarks(fl, vs, c.redactions, Chosen(c, k));
  }

  lemma SavedPlace(fl: real -> real, vs: seq<View>, c: Config, k: nat)
    requires Saves(fl, vs, c) && k < |Edited(fl, vs, c)|
    ensures c.pages.List? && c.pages.pages != [] ==> k < |c.pages.pages| && c.pages.pages[k].Whole?
    ensures |Edited(fl, vs, c)| == if c.pages.List? && c.pages.pages != [] then |c.pages.pages| else |vs|
    ensures 0 <= Chosen(c, k) < |vs| && |Redacted(fl, vs, c.redactions)| == |vs|
    ensures var (place, page) := (Edited(fl, vs, c)[k], Redacted(fl, vs, c.redactions)[Chosen(c, k)]);
            place == page.(rotation := (page.rotation + TotalTurn(c.turns, k)) % 360)
  {
    hide Redactable, AreasOf, RedactPage, TotalTurn;
  }

  lemma PageMarks(fl: real -> real, vs: seq<View>, rs: seq<Redaction>, k: nat)
    requires k < |vs| && Redactable(fl, vs, rs)
    ensures |Redacted(fl, vs, rs)| == |vs|
    ensures var (was, out) := (vs[k], Redacted(fl, vs, rs)[k]);
            if exists i :: 0 <= i < |rs| && rs[i].page == Whole(k)
            then out.annots == [] && forall r :: r in was.redacted + was.annots ==> r in out.redacted
            else out.annots == was.annots && out.redacted == was.redacted
  {
    hide Redactable, AreasOf;
    PagesHaveAreas(fl, vs, rs, k);
    assert k in Pages(rs) <==> exists i :: 0 <= i < |rs| && rs[i].page == Whole(k);
  }

  /** r is the area that this redaction asks for on page k. */
  predicate Asks(fl: real -> real, v: View, k: nat, redaction: Redaction, r: Rect) {
    redaction.page == Whole(k) && AllFinite(redaction.area) && r == Derotate(v, Requested(fl, redaction))
  }

  lemma {:induction false} AreasAreAsked(fl: real -> real, vs: seq<View>, rs: seq<Redaction>, k: nat)
    requires k < |vs| && Redactable(fl, vs, rs)
    ensures forall r :: r in AreasOf(fl, vs, rs, k) ==> exists i :: 0 <= i < |rs| && Asks(fl, vs[k], k, rs[i], r)
  {
    if rs != [] {
      var front, last := rs[..|rs| - 1], rs[|rs| - 1];
      AreasAreAsked(fl, vs, front, k);
      forall r | r in AreasOf(fl, vs, rs, k) ensures exists i :: 0 <= i < |rs| && Asks(fl, vs[k], k, rs[i], r) {
        if r in AreasOf(fl, vs, front, k) {
          var i :| 0 <= i < |front| && Asks(fl, vs[k], k, front[i], r);
          assert Asks(fl, vs[k], k, rs[i], r);
        } else {
          assert Asks(fl, vs[k], k, rs[|rs| - 1], r);
        }
      }
    }
  }

  lemma {:induction false} AreaIsListed(fl: real -> real, vs: seq<View>, rs: seq<Redaction>, k: nat, i: nat)
    requires k < |vs| && Redactable(fl, vs, rs) && i < |rs| && rs[i].page.n == k
    ensures Derotate(vs[k], Requested(fl, rs[i])) in AreasOf(fl, vs, rs, k)
  {
    if i < |rs| - 1 {
      AreaIsListed(fl, vs, rs[..|rs| - 1], k, i);
    }
  }
}
