/** The pure decisions of the speech-bubble dialog: which corner its pointer starts from, where
    the paddings go for that corner, and which button of a component tree it attaches to. */
module BubbleWindow {
  import opened Wrappers

  /** The corner the pointer of the bubble starts in. */
  datatype Alignment = TOPLEFT | TOPRIGHT | BOTTOMLEFT | BOTTOMRIGHT | LEFTTOP | LEFTBOTTOM | RIGHTTOP | RIGHTBOTTOM

  const CORNER_RADIUS: int := 20

  predicate PointsUp(a: Alignment) { a == TOPLEFT || a == TOPRIGHT }
  predicate PointsDown(a: Alignment) { a == BOTTOMLEFT || a == BOTTOMRIGHT }
  predicate PointsLeft(a: Alignment) { a == LEFTTOP || a == LEFTBOTTOM }
  predicate PointsRight(a: Alignment) { a == RIGHTTOP || a == RIGHTBOTTOM }

  /** The geometry calculateAlignment reads: the owner frame's width and height, the component's
      screen location (whole pixels, read as doubles in the source) and its width and height. */
  datatype Geometry = Geometry(xframe: nat, yframe: nat, xloc: int, yloc: int, xSize: nat, ySize: nat)

  predicate InUpperHalf(g: Geometry) { g.yloc < g.yframe / 2 }
  predicate InLeftHalf(g: Geometry) { g.xloc < g.xframe / 2 }

  /** calculateAlignment: in each quadrant of the frame the preferred alignment is kept when it
      points into that quadrant and the component is small enough, else a fixed one is chosen.
      The frame halves and yframe / 3 are int divisions; xloc / 3 divides a double, so it is
      compared exactly, as 3 * xSize against xloc. */
  function CalculateAlignment(preferred: Alignment, g: Geometry): (r: Alignment)
    ensures r == preferred || r == DefaultFor(g)
    ensures InUpperHalf(g) && InLeftHalf(g) ==>
      r == (if (preferred == TOPLEFT || preferred == LEFTTOP) && g.ySize <= g.yframe / 3 then preferred else LEFTTOP)
    ensures InUpperHalf(g) && !InLeftHalf(g) ==>
      r == (if (preferred == TOPRIGHT || preferred == RIGHTTOP) && g.ySize <= g.yframe / 3 then preferred else RIGHTTOP)
    ensures !InUpperHalf(g) && InLeftHalf(g) ==>
      r == (if (preferred == BOTTOMLEFT || preferred == LEFTBOTTOM) && 3 * g.xSize <= g.xloc then preferred else BOTTOMLEFT)
    ensures !InUpperHalf(g) && !InLeftHalf(g) ==>
      r == (if preferred == BOTTOMRIGHT || preferred == RIGHTBOTTOM then preferred else TOPRIGHT)
  {
    if g.yloc < g.yframe / 2 then
      if g.xloc < g.xframe / 2 then
        if !(preferred == TOPLEFT || preferred == LEFTTOP) || g.ySize > g.yframe / 3 then LEFTTOP else preferred
      else
        if !(preferred == TOPRIGHT || preferred == RIGHTTOP) || g.ySize > g.yframe / 3 then RIGHTTOP else preferred
    else
      if g.xloc < g.xframe / 2 then
        if !(preferred == BOTTOMLEFT || preferred == LEFTBOTTOM) || 3 * g.xSize > g.xloc then BOTTOMLEFT else preferred
      else
        if !(preferred == BOTTOMRIGHT || preferred == RIGHTBOTTOM) then TOPRIGHT else preferred
  }

  /** The alignment chosen in each quadrant when the preferred one is not kept. */
  function DefaultFor(g: Geometry): Alignment
  {
    if InUpperHalf(g) then (if InLeftHalf(g) then LEFTTOP else RIGHTTOP)
    else (if InLeftHalf(g) then BOTTOMLEFT else TOPRIGHT)
  }

  /** The alignments calculateAlignment may return in a quadrant. */
  predicate FitsQuadrant(a: Alignment, g: Geometry)
  {
    if InUpperHalf(g) && InLeftHalf(g) then a == TOPLEFT || a == LEFTTOP
    else if InUpperHalf(g) then a == TOPRIGHT || a == RIGHTTOP
    else if InLeftHalf(g) then a == BOTTOMLEFT || a == LEFTBOTTOM
    else a == BOTTOMRIGHT || a == RIGHTBOTTOM || a == TOPRIGHT
  }

  /** Whatever is preferred, the chosen alignment belongs to the component's quadrant, and a
      preference outside that quadrant is never kept. */
  lemma AlignmentFitsQuadrant(preferred: Alignment, g: Geometry)
    ensures FitsQuadrant(CalculateAlignment(preferred, g), g)
    ensures !FitsQuadrant(preferred, g) ==> CalculateAlignment(preferred, g) == DefaultFor(g)
  {
  }

  /** Choosing again with the chosen alignment as the preference changes nothing. */
  lemma AlignmentIdempotent(preferred: Alignment, g: Geometry)
    ensures CalculateAlignment(CalculateAlignment(preferred, g), g) == CalculateAlignment(preferred, g)
  {
  }

  /** A java.awt.Insets. */
  datatype Insets = Insets(top: int, left: int, bottom: int, right: int)

  /** The constructor's switch: the paddings of the title (insets) and of the text (lInsets). */
  function InsetsFor(a: Alignment): (r: (Insets, Insets))
    ensures r.0.top == (if PointsUp(a) then CORNER_RADIUS + 15 else 10)
    ensures r.0.left == (if PointsLeft(a) then CORNER_RADIUS + 15 else 10)
    ensures r.0.bottom == 10
    ensures r.0.right == (if PointsRight(a) then CORNER_RADIUS + 15 else 10)
    ensures r.1.top == 0
    ensures r.1.left == (if PointsLeft(a) then CORNER_RADIUS + 15 else 10)
    ensures r.1.bottom == (if PointsDown(a) then CORNER_RADIUS + 15 else 10)
    ensures r.1.right == (if PointsRight(a) then CORNER_RADIUS + 15 else 10)
  {
    var lInsets := Insets(0, 10, 10, 10);
    match a
    case TOPLEFT => (Insets(CORNER_RADIUS + 15, 10, 10, 10), lInsets)
    case TOPRIGHT => (Insets(CORNER_RADIUS + 15, 10, 10, 10), lInsets)
    case LEFTTOP => (Insets(10, CORNER_RADIUS + 15, 10, 10), Insets(0, CORNER_RADIUS + 15, 10, 10))
    case LEFTBOTTOM => (Insets(10, CORNER_RADIUS + 15, 10, 10), Insets(0, CORNER_RADIUS + 15, 10, 10))
    case BOTTOMRIGHT => (Insets(10, 10, 10, 10), Insets(0, 10, CORNER_RADIUS + 15, 10))
    case BOTTOMLEFT => (Insets(10, 10, 10, 10), Insets(0, 10, CORNER_RADIUS + 15, 10))
    case RIGHTTOP => (Insets(10, 10, 10, CORNER_RADIUS + 15), Insets(0, 10, 10, CORNER_RADIUS + 15))
    case RIGHTBOTTOM => (Insets(10, 10, 10, CORNER_RADIUS + 15), Insets(0, 10, 10, CORNER_RADIUS + 15))
  }

  /** A component of the tree findButton searches: a button carries the rm_id of its resource
      action (None when its action is not a resource action or has no id), and a container its
      children in order; a component that is not a container has none. */
  datatype Kind = Button(rmId: Option<string>) | Plain
  datatype Component = Component(kind: Kind, children: seq<Component>)

  /** The test findButton applies to one component. */
  predicate Matches(name: string, c: Component)
  {
    c.kind.Button? && c.kind.rmId == Some(name)
  }

  /** findButton: the component itself if it matches, else the first child subtree that yields a
      button. */
  function FindButton(name: string, root: Component): Option<Component>
    decreases root, 1, 0
  {
    if Matches(name, root) then Some(root) else FindInChildren(name, root, 0)
  }

  /** The loop over the children of a container, from the i-th child on. */
  function FindInChildren(name: string, root: Component, i: nat): Option<Component>
    requires i <= |root.children|
    decreases root, 0, |root.children| - i
  {
    if i == |root.children| then None
    else
      var result := FindButton(name, root.children[i]);
      if result.Some? then result else FindInChildren(name, root, i + 1)
  }

  /** Depth-first pre-order of a component tree, the reference order of the search. */
  function PreOrder(root: Component): seq<Component>
    decreases root, 1, 0
  {
    [root] + PreOrderFrom(root, 0)
  }

  function PreOrderFrom(root: Component, i: nat): seq<Component>
    requires i <= |root.children|
    decreases root, 0, |root.children| - i
  {
    if i == |root.children| then [] else PreOrder(root.children[i]) + PreOrderFrom(root, i + 1)
  }

  /** The first component of a sequence that matches. */
  function FirstMatch(name: string, s: seq<Component>): Option<Component>
  {
    if s == [] then None
    else if Matches(name, s[0]) then Some(s[0])
    else FirstMatch(name, s[1..])
  }

  /** FirstMatch finds nothing exactly when nothing matches, and otherwise a matching entry with
      no match before it. */
  lemma {:induction false} FirstMatchSpec(name: string, s: seq<Component>)
    ensures FirstMatch(name, s).None? <==> forall k :: 0 <= k < |s| ==> !Matches(name, s[k])
    ensures FirstMatch(name, s).Some? ==>
      exists k :: 0 <= k < |s| && s[k] == FirstMatch(name, s).value && Matches(name, s[k]) &&
        (forall j :: 0 <= j < k ==> !Matches(name, s[j]))
  {
    if s != [] && !Matches(name, s[0]) {
      var t := s[1..];
      FirstMatchSpec(name, t);
      assert forall k :: 1 <= k < |s| ==> s[k] == t[k - 1];
      if FirstMatch(name, t).Some? {
        var k :| 0 <= k < |t| && t[k] == FirstMatch(name, t).value && Matches(name, t[k]) &&
          forall j :: 0 <= j < k ==> !Matches(name, t[j]);
        assert s[k + 1] == FirstMatch(name, s).value && forall j :: 0 <= j < k + 1 ==> !Matches(name, s[j]);
      } else {
        assert forall k :: 0 <= k < |s| ==> !Matches(name, s[k]);
      }
    }
  }

  lemma {:induction false} FirstMatchAppend(name: string, a: seq<Component>, b: seq<Component>)
    ensures FirstMatch(name, a + b) == if FirstMatch(name, a).Some? then FirstMatch(name, a) else FirstMatch(name, b)
    decreases |a|
  {
    if a != [] {
      assert (a + b)[0] == a[0] && (a + b)[1..] == a[1..] + b;
      FirstMatchAppend(name, a[1..], b);
    } else {
      assert a + b == b;
    }
  }

  /** findButton returns the first matching button of the tree in depth-first pre-order, and
      null exactly when no component of the tree matches. */
  lemma {:induction false} FindButtonIsFirstInPreOrder(name: string, root: Component)
    ensures FindButton(name, root) == FirstMatch(name, PreOrder(root))
    decreases root, 1, 0
  {
    FindInChildrenIsFirst(name, root, 0);
    FirstMatchAppend(name, [root], PreOrderFrom(root, 0));
  }

  lemma {:induction false} FindInChildrenIsFirst(name: string, root: Component, i: nat)
    requires i <= |root.children|
    ensures FindInChildren(name, root, i) == FirstMatch(name, PreOrderFrom(root, i))
    decreases root, 0, |root.children| - i
  {
    if i < |root.children| {
      FindButtonIsFirstInPreOrder(name, root.children[i]);
      FindInChildrenIsFirst(name, root, i + 1);
      FirstMatchAppend(name, PreOrder(root.children[i]), PreOrderFrom(root, i + 1));
    }
  }

  /** findButton yields a matching button of the tree, and null exactly when no component of the
      tree matches. */
  lemma FindButtonFindsMatch(name: string, root: Component)
    ensures FindButton(name, root).None? <==>
      forall k :: 0 <= k < |PreOrder(root)| ==> !Matches(name, PreOrder(root)[k])
    ensures FindButton(name, root).Some? ==>
      Matches(name, FindButton(name, root).value) && FindButton(name, root).value in PreOrder(root)
  {
    FindButtonIsFirstInPreOrder(name, root);
    FirstMatchSpec(name, PreOrder(root));
  }
}
