/** The ArUco marker tool (opencv-aruco.cpp): the key-driven walk through the
    250 markers of the 6x6 dictionary and the layout of the printable marker
    page. Images are not modelled; only key codes, file names and rectangles. */
module Aruco {
  import opened Outcomes
  import Decimal

  // ---------------------------------------------------------------------------
  // generateMarker and showArucoMarkers

  const PKey := 112
  const QKey := 113

  /** Number of markers in DICT_6X6_250, walked as ids 0 .. 249. */
  const DictionarySize := 250

  /** The file a marker is saved to: "marker" + std::to_string(id) + ".png". */
  function MarkerFileName(markerId: int): string
  {
    "marker" + Decimal.IntToString(markerId) + ".png"
  }

  /** The marker id a file name of the saved-marker form stands for. */
  function ParseMarkerFileName(name: string): Option<int>
  {
    if |name| >= 10 && name[..6] == "marker" && name[|name| - 4..] == ".png"
    then Decimal.ParseInt(name[6..|name| - 4])
    else None
  }

  /** Every saved marker file names its marker id. */
  lemma MarkerFileNameRoundTrip(markerId: int)
    ensures ParseMarkerFileName(MarkerFileName(markerId)) == Some(markerId)
  {
    var digits := Decimal.IntToString(markerId);
    var name := MarkerFileName(markerId);
    assert |digits| >= 1;
    assert name[..6] == "marker";
    assert name[|name| - 4..] == ".png";
    assert name[6..|name| - 4] == digits;
    Decimal.IntToStringRoundTrip(markerId);
  }

  /** The parser accepts no other spelling of a saved marker's name: a name that
      parses to an id is the name that id is saved under. */
  lemma MarkerFileNameExact(name: string, markerId: int)
    requires ParseMarkerFileName(name) == Some(markerId)
    ensures MarkerFileName(markerId) == name
  {
    var digits := name[6..|name| - 4];
    Decimal.ParseIntExact(digits, markerId);
    assert name == name[..6] + digits + name[|name| - 4..];
  }

  /** Saving two different markers never writes the same file. */
  lemma MarkerFileNamesDistinct(a: int, b: int)
    requires a != b
    ensures MarkerFileName(a) != MarkerFileName(b)
  {
    MarkerFileNameRoundTrip(a);
    MarkerFileNameRoundTrip(b);
  }

  /** What generateMarker does with the key pressed while marker `markerId` is shown. */
  datatype KeyAction = KeyAction(quit: bool, saved: Option<string>)

  /** generateMarker: 'q' quits without saving, 'p' saves the marker image and goes
      on, every other key just goes on. */
  function GenerateMarker(markerId: int, keyId: int): (a: KeyAction)
    ensures a.quit <==> keyId == QKey
    ensures a.saved.Some? <==> keyId == PKey
    ensures a.saved.Some? ==> a.saved.value == MarkerFileName(markerId)
  {
    if keyId == PKey then KeyAction(false, Some(MarkerFileName(markerId)))
    else if keyId == QKey then KeyAction(true, None)
    else KeyAction(false, None)
  }

  /** The file generateMarker saves names the marker shown, and no other
      spelling of a name parses to that marker. */
  lemma GenerateMarkerSavesParsable(markerId: int, keyId: int, name: string)
    ensures GenerateMarker(markerId, keyId).saved.Some? ==>
      ParseMarkerFileName(GenerateMarker(markerId, keyId).saved.value) == Some(markerId)
    ensures GenerateMarker(markerId, keyId).saved.Some? && ParseMarkerFileName(name) == Some(markerId) ==>
      name == GenerateMarker(markerId, keyId).saved.value
  {
    MarkerFileNameRoundTrip(markerId);
    if ParseMarkerFileName(name) == Some(markerId) {
      MarkerFileNameExact(name, markerId);
    }
  }

  /** The files saved while marker ids 0 .. n-1 are answered with `keys[0 .. n-1]`. */
  function SavedFiles(keys: seq<int>, n: nat): (files: seq<string>)
    requires n <= |keys|
    ensures |files| <= n
  {
    if n == 0 then []
    else SavedFiles(keys, n - 1) + (if keys[n - 1] == PKey then [MarkerFileName(n - 1)] else [])
  }

  /** showArucoMarkers with `keys` the successive keys pressed. `visited` lists the
      ids whose key was read; `status` is the return value, or None while the
      program still waits for a key because `keys` ran out. */
  method ShowArucoMarkers(keys: seq<int>) returns (status: Option<int>, visited: seq<int>, saved: seq<string>)
    ensures |visited| <= DictionarySize && |visited| <= |keys|
    ensures forall i :: 0 <= i < |visited| ==> visited[i] == i
    ensures forall i :: 0 <= i < |visited| - 1 ==> keys[i] != QKey
    ensures status.Some? <==> |visited| == DictionarySize || (|visited| > 0 && keys[|visited| - 1] == QKey)
    ensures status.Some? ==> status.value == 0
    ensures status.None? ==> |visited| == |keys|
    ensures saved == SavedFiles(keys, |visited|)
  {
    visited := [];
    saved := [];
    var quitPressed := false;
    var i := 0;
    while i < DictionarySize && i < |keys| && !quitPressed
      invariant 0 <= i <= DictionarySize && i <= |keys|
      invariant |visited| == i
      invariant forall j :: 0 <= j < i ==> visited[j] == j
      invariant quitPressed <==> i > 0 && keys[i - 1] == QKey
      invariant forall j :: 0 <= j < i - 1 ==> keys[j] != QKey
      invariant saved == SavedFiles(keys, i)
    {
      var action := GenerateMarker(i, keys[i]);
      visited := visited + [i];
      if action.saved.Some? {
        saved := saved + [action.saved.value];
      }
      quitPressed := action.quit;
      i := i + 1;
    }
    status := if quitPressed || i == DictionarySize then Some(0) else None;
  }

  /** Every id answered with 'p' has its file saved. */
  lemma {:induction false} PressedMarkersSaved(keys: seq<int>, n: nat)
    requires n <= |keys|
    ensures forall id :: 0 <= id < n && keys[id] == PKey ==> MarkerFileName(id) in SavedFiles(keys, n)
  {
    if n > 0 {
      PressedMarkersSaved(keys, n - 1);
      var before := SavedFiles(keys, n - 1);
      assert SavedFiles(keys, n) == before + (if keys[n - 1] == PKey then [MarkerFileName(n - 1)] else []);
      forall id | 0 <= id < n && keys[id] == PKey
        ensures MarkerFileName(id) in SavedFiles(keys, n)
      {
        if id < n - 1 {
          assert MarkerFileName(id) in before;
        }
      }
    }
  }

  /** Every saved file names, and parses back to, an id answered with 'p'. */
  lemma {:induction false} OnlyPressedMarkersSaved(keys: seq<int>, n: nat)
    requires n <= |keys|
    ensures forall f :: f in SavedFiles(keys, n) ==>
      var id := ParseMarkerFileName(f);
      id.Some? && 0 <= id.value < n && keys[id.value] == PKey && f == MarkerFileName(id.value)
  {
    if n > 0 {
      OnlyPressedMarkersSaved(keys, n - 1);
      var before := SavedFiles(keys, n - 1);
      var last := if keys[n - 1] == PKey then [MarkerFileName(n - 1)] else [];
      assert SavedFiles(keys, n) == before + last;
      MarkerFileNameRoundTrip(n - 1);
    }
  }

  // ---------------------------------------------------------------------------
  // showArucoGrid

  const MarkerSide := 220
  const Margin := 20
  const Rows := 6
  const Cols := 5
  const CanvasWidth := MarkerSide * Cols + 2 * Margin
  const CanvasHeight := MarkerSide * Rows + 2 * Margin

  /** Side in pixels of every generated marker image. */
  const MarkerPixels := 200

  /** The markers of the printable page, in placement order. */
  const MarkerList: seq<int> := [19, 29, 31, 43, 62, 65, 67, 68, 82, 93, 96, 98, 100, 126, 127, 129,
    130, 155, 205, 206, 220, 227, 228, 231, 247, 248, 0, 1, 2, 3, 4, 5, 6, 7, 8]

  /** `cv::Rect`: top-left corner and size in pixels. */
  datatype Rect = Rect(x: int, y: int, width: int, height: int)

  predicate Within(inner: Rect, outer: Rect)
  {
    && outer.x <= inner.x && inner.x + inner.width <= outer.x + outer.width
    && outer.y <= inner.y && inner.y + inner.height <= outer.y + outer.height
  }

  /** The two rectangles share no pixel. */
  predicate Disjoint(a: Rect, b: Rect)
  {
    || a.x + a.width <= b.x || b.x + b.width <= a.x
    || a.y + a.height <= b.y || b.y + b.height <= a.y
  }

  /** A marker copied onto the canvas. */
  datatype Placement = Placement(markerId: int, rect: Rect)

  /** The rectangle a marker occupies in grid cell (row, col). */
  function CellRect(row: int, col: int): Rect
  {
    Rect(col * MarkerSide + Margin, row * MarkerSide + Margin, MarkerPixels, MarkerPixels)
  }

  /** The rectangle of the k-th placed marker: cells are filled row by row. */
  function SlotRect(k: nat): Rect
  {
    CellRect(k / Cols, k % Cols)
  }

  function Min(a: int, b: int): int
  {
    if a < b then a else b
  }

  /** The canvas the markers are copied onto. */
  function Canvas(): Rect
  {
    Rect(0, 0, CanvasWidth, CanvasHeight)
  }

  /** Filling row `row` up to column `col` is slot row * Cols + col. */
  lemma SlotOfCell(row: nat, col: nat)
    requires col < Cols
    ensures SlotRect(row * Cols + col) == CellRect(row, col)
  {
  }

  /** Every slot of the grid lies inside the canvas. */
  lemma SlotInsideCanvas(k: nat)
    requires k < Rows * Cols
    ensures Within(SlotRect(k), Canvas())
  {
  }

  /** Markers in different slots do not overlap: cells are 220 px apart and
      markers only 200 px wide. */
  lemma SlotsDisjoint(k1: nat, k2: nat)
    requires k1 != k2
    ensures Disjoint(SlotRect(k1), SlotRect(k2))
  {
  }

  /** The nested row/column loop of showArucoGrid over an arbitrary marker list:
      the canvas it allocates and the markers it copies onto it, in order. */
  method LayoutGrid(markers: seq<int>) returns (canvas: Rect, placed: seq<Placement>)
    ensures canvas == Rect(0, 0, 1140, 1360)
    ensures |placed| == Min(|markers|, Rows * Cols)
    ensures forall k :: 0 <= k < |placed| ==> placed[k] == Placement(markers[k], CellRect(k / Cols, k % Cols))
    ensures forall k :: 0 <= k < |placed| ==> Within(placed[k].rect, canvas)
    ensures forall k1, k2 :: 0 <= k1 < |placed| && 0 <= k2 < |placed| && k1 != k2 ==>
      Disjoint(placed[k1].rect, placed[k2].rect)
  {
    canvas := Rect(0, 0, CanvasWidth, CanvasHeight);
    placed := [];
    var markerIterator := 0;
    var rows := 0;
    while rows < Rows
      invariant 0 <= rows <= Rows
      invariant markerIterator == Min(|markers|, rows * Cols)
      invariant |placed| == markerIterator
      invariant forall k :: 0 <= k < |placed| ==> placed[k] == Placement(markers[k], SlotRect(k))
    {
      var cols := 0;
      while cols < Cols
        invariant 0 <= cols <= Cols
        invariant markerIterator == Min(|markers|, rows * Cols + cols)
        invariant |placed| == markerIterator
        invariant forall k :: 0 <= k < |placed| ==> placed[k] == Placement(markers[k], SlotRect(k))
      {
        if markerIterator < |markers| {
          SlotOfCell(rows, cols);
          placed := placed + [Placement(markers[markerIterator], CellRect(rows, cols))];
          markerIterator := markerIterator + 1;
        }
        cols := cols + 1;
      }
      rows := rows + 1;
    }
    forall k | 0 <= k < |placed|
      ensures Within(placed[k].rect, canvas)
    {
      SlotInsideCanvas(k);
    }
    forall k1, k2 | 0 <= k1 < |placed| && 0 <= k2 < |placed| && k1 != k2
      ensures Disjoint(placed[k1].rect, placed[k2].rect)
    {
      SlotsDisjoint(k1, k2);
    }
  }

  /** showArucoGrid: the 35-entry marker list fills the 30 cells of the page, so
      its first 30 entries are drawn in order and the last five are not. */
  method ShowArucoGrid() returns (canvas: Rect, placed: seq<Placement>)
    ensures canvas == Rect(0, 0, 1140, 1360)
    ensures |MarkerList| == 35 && |placed| == 30
    ensures forall k :: 0 <= k < |placed| ==> placed[k].markerId == MarkerList[k]
    ensures MarkerList[|placed|..] == [4, 5, 6, 7, 8]
    ensures forall k :: 0 <= k < |placed| ==> Within(placed[k].rect, canvas)
    ensures forall k1, k2 :: 0 <= k1 < |placed| && 0 <= k2 < |placed| && k1 != k2 ==>
      Disjoint(placed[k1].rect, placed[k2].rect)
  {
    canvas, placed := LayoutGrid(MarkerList);
  }
}
