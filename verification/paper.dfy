/** The widget (index.js, class `Paper`): its configuration, the geometry
    calculation, and the reset and render passes over the element records of
    the map and its groups. DOM construction is abstracted to fresh element
    records; the runtime's number formatting and `Math.cos` are parameters. */
module Paper {
  import opened Wrappers
  import opened Text
  import Css
  import opened Helpers

  datatype Rotation = Rotation(x: real, y: real, z: real)

  /** `specs.map`; `offset` is derived by `Calculate`. */
  datatype MapSpecs = MapSpecs(foldAngle: real, rotation: Rotation, offset: real)

  /** `specs.pieces`; `height` is derived by `Calculate`. Colours are not modelled. */
  datatype PieceSpecs = PieceSpecs(amount: int, width: real, height: real, ratio: real)

  datatype Specs = Specs(mapSpecs: MapSpecs, pieces: PieceSpecs)

  /** One entry of `this.groups`: the group wrapper, the two halves and the shadow. */
  datatype Group = Group(group: Element, left: Element, right: Element, shadow: Element)

  /** A widget instance: its specs, the `.map` element and the groups. */
  datatype Widget = Widget(specs: Specs, mapNode: Element, groups: seq<Group>)

  /** What the runtime supplies: number-to-text conversion in template literals
      and the cosine of an angle given in degrees (`Math.cos(a * Math.PI / 180)`). */
  datatype Env = Env(fmt: Format, cosDegrees: real -> real)

  /** The constructor's default specs (colours left out). */
  function Defaults(): Specs {
    Specs(MapSpecs(40.0, Rotation(25.0, 0.0, 0.0), 0.0), PieceSpecs(3, 100.0, 400.0, 4.0))
  }

  predicate GroupStylable(g: Group) {
    Stylable(g.group) && Stylable(g.left) && Stylable(g.right) && Stylable(g.shadow)
  }

  /** Every element the widget holds is a DOM element, as `Helpers.new` makes them. */
  predicate Valid(w: Widget) {
    Stylable(w.mapNode) && forall i :: 0 <= i < |w.groups| ==> GroupStylable(w.groups[i])
  }

  /** A new `div`: styled, with an empty transform. */
  function NewElement(): Element {
    Element(Some(Style(Some(""))))
  }

  function NewGroup(): Group {
    Group(NewElement(), NewElement(), NewElement(), NewElement())
  }

  /** The number of iterations of `for (i = 0; i < amount; i++)`. */
  function GroupCount(specs: Specs): nat {
    if specs.pieces.amount < 0 then 0 else specs.pieces.amount
  }

  /** How a call of `initDOM` or `update` ends: with a return value, or with
      the TypeError thrown by calling `append` on a `NodeList`. */
  datatype Outcome = ReturnedTrue | ReturnedFalse | ReturnedUndefined | ThrewTypeError

  /** `Paper.initDOM`, given what the container lookup found: a new map
      element and, when the lookup is truthy, one new group per piece. With no
      match it returns `false` before the loop. With several matches the loop
      runs and the final `append` on the `NodeList` throws; the widget keeps
      what was assigned before the throw. */
  function InitDOM(specs: Specs, container: Lookup): (r: (Widget, Outcome))
    ensures r.1 == ReturnedFalse <==> container.NoMatch?
    ensures r.1 == ReturnedTrue <==> container.OneMatch?
    ensures r.1 == ThrewTypeError <==> container.SeveralMatches?
    ensures Valid(r.0) && r.0.specs == specs && r.0.mapNode == NewElement()
    ensures |r.0.groups| == (if container.NoMatch? then 0 else GroupCount(specs))
    ensures forall i :: 0 <= i < |r.0.groups| ==> r.0.groups[i] == NewGroup()
  {
    if container.NoMatch? then (Widget(specs, NewElement(), []), ReturnedFalse)
    else
      var w := Widget(specs, NewElement(), seq(GroupCount(specs), _ => NewGroup()));
      if container.OneMatch? then (w, ReturnedTrue) else (w, ThrewTypeError)
  }

  /** `Paper.calculate`, with the cosine taken from the runtime: the pane height
      follows the ratio and the offset is twice the width lost by folding. */
  function Calculate(specs: Specs, cosDegrees: real -> real): (r: Specs)
    ensures r.pieces.height == specs.pieces.ratio * specs.pieces.width
    ensures r.mapSpecs.offset == 2.0 * specs.pieces.width * (1.0 - cosDegrees(specs.mapSpecs.foldAngle))
    ensures cosDegrees(specs.mapSpecs.foldAngle) == 1.0 ==> r.mapSpecs.offset == 0.0
    ensures r.pieces.(height := specs.pieces.height) == specs.pieces
    ensures r.mapSpecs.(offset := specs.mapSpecs.offset) == specs.mapSpecs
  {
    var pieces := specs.pieces;
    var m := specs.mapSpecs;
    var rotatedWidth := pieces.width * cosDegrees(m.foldAngle);
    specs.(pieces := pieces.(height := pieces.ratio * pieces.width),
           mapSpecs := m.(offset := 2.0 * (pieces.width - rotatedWidth)))
  }

  /** Height and offset are derived: recalculating changes nothing. */
  lemma CalculateIdempotent(specs: Specs, cosDegrees: real -> real)
    ensures Calculate(Calculate(specs, cosDegrees), cosDegrees) == Calculate(specs, cosDegrees)
  {
  }

  /** For a fold between -90 and 90 degrees the offset lies between 0 and twice the width. */
  lemma OffsetBounds(specs: Specs, cosDegrees: real -> real)
    requires specs.pieces.width >= 0.0
    requires 0.0 <= cosDegrees(specs.mapSpecs.foldAngle) <= 1.0
    ensures 0.0 <= Calculate(specs, cosDegrees).mapSpecs.offset <= 2.0 * specs.pieces.width
  {
    var c := cosDegrees(specs.mapSpecs.foldAngle);
    var w := specs.pieces.width;
    assert 0.0 <= w * (1.0 - c) <= w by {
      assert w * (1.0 - c) == w - w * c;
      assert 0.0 <= w * c <= w * 1.0;
    }
  }

  /** The offset depends on the fold angle only through its cosine, so an even
      cosine gives the same offset for a fold and its mirror image. */
  lemma OffsetSymmetric(specs: Specs, cosDegrees: real -> real)
    requires cosDegrees(-specs.mapSpecs.foldAngle) == cosDegrees(specs.mapSpecs.foldAngle)
    ensures Calculate(specs.(mapSpecs := specs.mapSpecs.(foldAngle := -specs.mapSpecs.foldAngle)), cosDegrees).mapSpecs.offset
         == Calculate(specs, cosDegrees).mapSpecs.offset
  {
  }

  /** The value of `compensate` after `n` iterations of the render loop. */
  function Compensation(n: nat, offset: real): real {
    if n == 0 then 0.0 else Compensation(n - 1, offset) + ((n - 1) as real) * offset
  }

  /** Offset times n(n-1)/2: the sum 0 + 1 + ... + (n-1) of group indices,
      scaled by the offset. */
  function Triangular(n: nat, offset: real): real {
    offset * ((n * (n - 1)) as real) / 2.0
  }

  /** The loop's accumulated compensation has the closed form offset·n(n-1)/2. */
  lemma {:induction false} CompensationClosedForm(n: nat, offset: real)
    ensures Compensation(n, offset) == Triangular(n, offset)
  {
    if n > 0 {
      CompensationClosedForm(n - 1, offset);
      var a := ((n - 1) * (n - 2)) as real;
      var b := (n * (n - 1)) as real;
      assert b == a + 2.0 * ((n - 1) as real) by {
        assert n * (n - 1) == (n - 1) * (n - 2) + 2 * (n - 1);
      }
      calc {
        Compensation(n, offset);
        offset * a / 2.0 + ((n - 1) as real) * offset;
        offset * (a + 2.0 * ((n - 1) as real)) / 2.0;
        offset * b / 2.0;
      }
    }
  }

  function ClearTransform(e: Element): Element
    requires Stylable(e)
  {
    e.(style := Some(e.style.value.(transform := None)))
  }

  function ClearGroup(g: Group): Group
    requires GroupStylable(g)
  {
    g.(group := ClearTransform(g.group), right := ClearTransform(g.right), left := ClearTransform(g.left))
  }

  /** `Paper.reset`: the map's transform becomes `''` and each group's, left
      half's and right half's becomes `null`; shadows and specs are untouched. */
  function Reset(w: Widget): (r: Widget)
    requires Valid(w)
    ensures Valid(r) && r.specs == w.specs && |r.groups| == |w.groups|
    ensures TransformOf(r.mapNode) == Some("")
    ensures forall i :: 0 <= i < |w.groups| ==>
      && TransformOf(r.groups[i].group) == None
      && TransformOf(r.groups[i].left) == None
      && TransformOf(r.groups[i].right) == None
      && r.groups[i].shadow == w.groups[i].shadow
  {
    Widget(w.specs, WithTransform(w.mapNode, ""),
           seq(|w.groups|, i requires 0 <= i < |w.groups| && GroupStylable(w.groups[i]) => ClearGroup(w.groups[i])))
  }

  /** Resetting twice is resetting once. */
  lemma ResetIdempotent(w: Widget)
    requires Valid(w)
    ensures Reset(Reset(w)) == Reset(w)
  {
    var r := Reset(w);
    var rr := Reset(r);
    assert rr.groups == r.groups by {
      forall i | 0 <= i < |r.groups|
        ensures rr.groups[i] == r.groups[i]
      {
        assert ClearGroup(r.groups[i]) == r.groups[i];
      }
    }
  }

  /** An element after `Helpers.rotate(element, angle, axis)`. */
  function Folded(fmt: Format, angle: real, axis: string): Element
    requires axis != ""
  {
    Element(Some(Style(Some(RotateCSS(fmt, angle, axis).value))))
  }

  /** How far group `index` is moved along x: `index * -offset`. */
  function GroupShift(index: nat, offset: real): real {
    (index as real) * -offset
  }

  /** A group element after `Helpers.translate(group, GroupShift(index, offset), 'x')`. */
  function Shifted(fmt: Format, e: Element, index: nat, offset: real): Element {
    Element(Some(Style(Some(TransformText(e) + TranslateCSS(fmt, GroupShift(index, offset), "x").value))))
  }

  /** Group `index` after one iteration of the render loop. */
  function Placed(fmt: Format, g: Group, index: nat, m: MapSpecs): Group {
    Group(Shifted(fmt, g.group, index, m.offset), Folded(fmt, -m.foldAngle, "y"), Folded(fmt, m.foldAngle, "y"), g.shadow)
  }

  /** The body of the render loop for group `index`: fold the two halves and
      shift the group element. */
  function PlaceGroup(fmt: Format, g: Group, index: nat, m: MapSpecs): (r: Group)
    requires GroupStylable(g)
    ensures r == Placed(fmt, g, index, m)
  {
    var left := Rotate(fmt, g.left, -m.foldAngle, "y").value;
    var right := Rotate(fmt, g.right, m.foldAngle, "y").value;
    var group := Translate(fmt, g.group, GroupShift(index, m.offset), "x").value;
    Group(group, left, right, g.shadow)
  }

  /** The loop of `Paper.render` from index `i` on, with `compensate` as
      accumulated so far. */
  function PlaceGroups(fmt: Format, gs: seq<Group>, i: nat, compensate: real, m: MapSpecs): (r: (seq<Group>, real))
    requires i <= |gs|
    requires forall k :: 0 <= k < |gs| ==> GroupStylable(gs[k])
    ensures |r.0| == |gs|
    ensures forall k :: 0 <= k < i ==> r.0[k] == gs[k]
    ensures forall k :: i <= k < |gs| ==> r.0[k] == Placed(fmt, gs[k], k, m)
    ensures r.1 == compensate + (Compensation(|gs|, m.offset) - Compensation(i, m.offset))
    decreases |gs| - i
  {
    if i == |gs| then (gs, compensate)
    else
      var next := gs[i := PlaceGroup(fmt, gs[i], i, m)];
      var step := (i as real) * m.offset;
      assert Compensation(i + 1, m.offset) == Compensation(i, m.offset) + step;
      var r := PlaceGroups(fmt, next, i + 1, compensate + step, m);
      assert forall k :: i < k < |gs| ==> next[k] == gs[k];
      r
  }

  /** The first three lines of `Paper.render`: rotate the map on y, then z,
      then x. Each rotation replaces the previous one, so only x remains. */
  function RotateMap(fmt: Format, e: Element, rotation: Rotation): (r: Element)
    requires Stylable(e)
    ensures r == Folded(fmt, rotation.x, "x")
  {
    var node1 := Rotate(fmt, e, rotation.y, "y").value;
    var node2 := Rotate(fmt, node1, rotation.z, "z").value;
    Rotate(fmt, node2, rotation.x, "x").value
  }

  /** The map after a render of `n` groups: its x-rotation followed by an
      x-translation of half of offset·n(n-1)/2. */
  function RenderedMap(fmt: Format, m: MapSpecs, n: nat): Element {
    Element(Some(Style(Some(
      RotateCSS(fmt, m.rotation.x, "x").value + TranslateCSS(fmt, Triangular(n, m.offset) / 2.0, "x").value))))
  }

  /** `Paper.render`: recalculate, rotate the map, run the group loop, then
      shift the map by half the accumulated compensation. The `Helpers.center`
      call inside the loop has no effect and is not modelled. */
  function Render(w: Widget, env: Env): (r: Widget)
    requires Valid(w)
    ensures Valid(r)
    ensures r.specs == Calculate(w.specs, env.cosDegrees)
    ensures |r.groups| == |w.groups|
    ensures forall i :: 0 <= i < |w.groups| ==> r.groups[i] == Placed(env.fmt, w.groups[i], i, r.specs.mapSpecs)
    ensures r.mapNode == RenderedMap(env.fmt, r.specs.mapSpecs, |w.groups|)
  {
    var specs := Calculate(w.specs, env.cosDegrees);
    var m := specs.mapSpecs;
    var rotated := RotateMap(env.fmt, w.mapNode, m.rotation);
    var placed := PlaceGroups(env.fmt, w.groups, 0, 0.0, m);
    assert placed.1 == Triangular(|w.groups|, m.offset) by {
      CompensationClosedForm(|w.groups|, m.offset);
    }
    assert forall i :: 0 <= i < |placed.0| ==> GroupStylable(placed.0[i]);
    var node := Translate(env.fmt, rotated, placed.1 / 2.0, "x").value;
    assert node == RenderedMap(env.fmt, m, |w.groups|) by {
      assert TransformText(rotated) == RotateCSS(env.fmt, m.rotation.x, "x").value;
    }
    Widget(specs, node, placed.0)
  }

  /** `Paper.update`. A missing argument is rejected and nothing changes.
      Otherwise the merged specs (the merge is a parameter) are rebuilt into
      new elements and rendered, unless `initDOM` throws, in which case
      `render` never runs and the specs stay as merged, not recalculated. */
  function Update<P>(w: Widget, newSpecs: Option<P>, merge: (Specs, P) -> Specs, container: Lookup, env: Env): (r: (Widget, Outcome))
    requires Valid(w)
    ensures r.1 == ReturnedFalse <==> newSpecs.None?
    ensures r.1 == ThrewTypeError <==> newSpecs.Some? && container.SeveralMatches?
    ensures r.1 != ReturnedTrue
    ensures newSpecs.None? ==> r.0 == w
    ensures newSpecs.Some? ==>
      && Valid(r.0)
      && |r.0.groups| == (if container.NoMatch? then 0 else GroupCount(merge(w.specs, newSpecs.value)))
    ensures newSpecs.Some? && !container.SeveralMatches? ==>
      r.0.specs == Calculate(merge(w.specs, newSpecs.value), env.cosDegrees)
    ensures newSpecs.Some? && container.SeveralMatches? ==>
      && r.0.specs == merge(w.specs, newSpecs.value)
      && (forall i :: 0 <= i < |r.0.groups| ==> r.0.groups[i] == NewGroup())
  {
    if newSpecs.None? then (w, ReturnedFalse)
    else
      var specs := merge(w.specs, newSpecs.value);
      var built := InitDOM(specs, container);
      if built.1 == ThrewTypeError then built
      else (Render(built.0, env), ReturnedUndefined)
  }

  lemma Axes()
    ensures Upper("x") == "X" && Upper("y") == "Y"
    ensures Plain("x") && Plain("y")
  {
    assert Upper("x")[0] == UpperChar('x');
    assert Upper("y")[0] == UpperChar('y');
  }

  /** A half folded about y reads back as that single rotation. */
  lemma FoldedCalls(fmt: Format, angle: real)
    requires Plain(fmt(angle))
    ensures Calls(Folded(fmt, angle, "y")) == Some([Css.Segment(Css.Rotate, "Y", fmt(angle))])
  {
    Axes();
    RotateCSSParses(fmt, angle, "y");
  }

  /** A group element without a transform, once shifted, reads back as that
      single translation. */
  lemma ShiftedCalls(fmt: Format, e: Element, index: nat, offset: real)
    requires !HasTransform(e)
    requires Plain(fmt(GroupShift(index, offset)))
    ensures Calls(Shifted(fmt, e, index, offset)) ==
      Some([Css.Segment(Css.Translate, "X", fmt(GroupShift(index, offset)))])
  {
    var css := TranslateCSS(fmt, GroupShift(index, offset), "x").value;
    Axes();
    TranslateCSSParses(fmt, GroupShift(index, offset), "x");
    assert TransformText(e) + css == css;
  }

  /** From a state where group `i` carries no transform (new or reset), one
      render leaves its halves with the single y-rotation by -/+ the fold
      angle and the group with the single x-translation by `-i * offset`. */
  lemma RenderGroupLayout(w: Widget, env: Env, i: nat)
    requires Valid(w)
    requires i < |w.groups| && !HasTransform(w.groups[i].group)
    ensures
      var r := Render(w, env);
      var m := r.specs.mapSpecs;
      && TransformText(r.groups[i].left) == RotateCSS(env.fmt, -m.foldAngle, "y").value
      && TransformText(r.groups[i].right) == RotateCSS(env.fmt, m.foldAngle, "y").value
      && TransformText(r.groups[i].group) == TranslateCSS(env.fmt, GroupShift(i, m.offset), "x").value
  {
    PlacedText(env.fmt, w.groups[i], i, Calculate(w.specs, env.cosDegrees).mapSpecs);
  }

  /** The text each element of a group without a transform carries after one
      iteration of the render loop. */
  lemma PlacedText(fmt: Format, g: Group, index: nat, m: MapSpecs)
    requires !HasTransform(g.group)
    ensures
      var p := Placed(fmt, g, index, m);
      && TransformText(p.left) == RotateCSS(fmt, -m.foldAngle, "y").value
      && TransformText(p.right) == RotateCSS(fmt, m.foldAngle, "y").value
      && TransformText(p.group) == TranslateCSS(fmt, GroupShift(index, m.offset), "x").value
  {
    var css := TranslateCSS(fmt, GroupShift(index, m.offset), "x").value;
    assert TransformText(g.group) + css == css;
  }

  /** One iteration of the render loop reads the group element only through
      its transform text, and keeps the shadow. */
  lemma PlacedDependsOnText(fmt: Format, g1: Group, g2: Group, index: nat, m: MapSpecs)
    requires TransformText(g1.group) == TransformText(g2.group) && g1.shadow == g2.shadow
    ensures Placed(fmt, g1, index, m) == Placed(fmt, g2, index, m)
  {
  }

  /** Render reads the previous state only through the specs, the number of
      groups, each group element's transform text and the shadows: earlier
      rotations of the halves and of the map leave no trace. */
  lemma RenderForgetsRotations(w1: Widget, w2: Widget, env: Env)
    requires Valid(w1) && Valid(w2)
    requires w1.specs == w2.specs && |w1.groups| == |w2.groups|
    requires forall i :: 0 <= i < |w1.groups| ==>
      TransformText(w1.groups[i].group) == TransformText(w2.groups[i].group)
      && w1.groups[i].shadow == w2.groups[i].shadow
    ensures Render(w1, env) == Render(w2, env)
  {
    var a := Render(w1, env);
    var b := Render(w2, env);
    assert a.groups == b.groups by {
      forall i | 0 <= i < |a.groups|
        ensures a.groups[i] == b.groups[i]
      {
        PlacedDependsOnText(env.fmt, w1.groups[i], w2.groups[i], i, a.specs.mapSpecs);
      }
    }
  }

  /** Reset followed by render gives exactly what rendering a newly built
      widget with the same specs gives, whatever the container lookup found. */
  lemma ResetThenRenderMatchesFresh(w: Widget, env: Env, container: Lookup)
    requires Valid(w)
    requires |w.groups| == (if container.NoMatch? then 0 else GroupCount(w.specs))
    requires forall i :: 0 <= i < |w.groups| ==> w.groups[i].shadow == NewElement()
    ensures Render(Reset(w), env) == Render(InitDOM(w.specs, container).0, env)
  {
    var cleared := Reset(w);
    var built := InitDOM(w.specs, container).0;
    forall i | 0 <= i < |w.groups|
      ensures TransformText(cleared.groups[i].group) == TransformText(built.groups[i].group)
      ensures cleared.groups[i].shadow == built.groups[i].shadow
    {
      assert TransformOf(cleared.groups[i].group) == None;
      assert built.groups[i] == NewGroup();
    }
    RenderForgetsRotations(cleared, built, env);
  }

  /** Rendering again without a reset is not idempotent: the halves and the map
      come out the same (rotation overwrites, and the map's x-rotation wipes
      the earlier translation), but every group gains one more translation. */
  lemma RenderTwice(w: Widget, env: Env)
    requires Valid(w)
    ensures
      var r1 := Render(w, env);
      var r2 := Render(r1, env);
      && r2.specs == r1.specs
      && r2.mapNode == r1.mapNode
      && |r2.groups| == |r1.groups|
      && (forall i :: 0 <= i < |w.groups| ==>
            && r2.groups[i].left == r1.groups[i].left
            && r2.groups[i].right == r1.groups[i].right
            && r2.groups[i].shadow == r1.groups[i].shadow
            && TransformText(r2.groups[i].group)
               == TransformText(r1.groups[i].group)
                  + TranslateCSS(env.fmt, GroupShift(i, r1.specs.mapSpecs.offset), "x").value)
      && (|w.groups| > 0 ==> r2 != r1)
  {
    var r1 := Render(w, env);
    var r2 := Render(r1, env);
    CalculateIdempotent(w.specs, env.cosDegrees);
    if |w.groups| > 0 {
      var css := TranslateCSS(env.fmt, GroupShift(0, r1.specs.mapSpecs.offset), "x").value;
      assert |css| > 0;
      assert |TransformText(r2.groups[0].group)| > |TransformText(r1.groups[0].group)|;
    }
  }

  /** Only the x-rotation of the map is visible after a render: the y and z
      rotations are overwritten. */
  lemma RenderIgnoresMapRotationYZ(w: Widget, env: Env, y: real, z: real)
    requires Valid(w)
    ensures
      var rotation := w.specs.mapSpecs.rotation.(y := y, z := z);
      var w' := w.(specs := w.specs.(mapSpecs := w.specs.mapSpecs.(rotation := rotation)));
      Render(w', env).mapNode == Render(w, env).mapNode
  {
    var rotation := w.specs.mapSpecs.rotation.(y := y, z := z);
    var w' := w.(specs := w.specs.(mapSpecs := w.specs.mapSpecs.(rotation := rotation)));
    var m := Render(w, env).specs.mapSpecs;
    var m' := Render(w', env).specs.mapSpecs;
    assert m'.rotation.x == m.rotation.x && m'.offset == m.offset;
    RenderedMapDepends(env.fmt, m', m, |w.groups|);
  }

  /** The rendered map depends on the map specs only through the x-rotation and the offset. */
  lemma RenderedMapDepends(fmt: Format, m1: MapSpecs, m2: MapSpecs, n: nat)
    requires m1.rotation.x == m2.rotation.x && m1.offset == m2.offset
    ensures RenderedMap(fmt, m1, n) == RenderedMap(fmt, m2, n)
  {
  }

  /** The map a render leaves reads back as exactly two calls: its x-rotation,
      then the x-translation by half the accumulated compensation. */
  lemma MapCalls(fmt: Format, m: MapSpecs, n: nat)
    requires Plain(fmt(m.rotation.x)) && Plain(fmt(Triangular(n, m.offset) / 2.0))
    ensures Calls(RenderedMap(fmt, m, n)) == Some([
      Css.Segment(Css.Rotate, "X", fmt(m.rotation.x)),
      Css.Segment(Css.Translate, "X", fmt(Triangular(n, m.offset) / 2.0))])
  {
    var shift := Triangular(n, m.offset) / 2.0;
    var text := RotateCSS(fmt, m.rotation.x, "x").value + TranslateCSS(fmt, shift, "x").value;
    assert TransformText(RenderedMap(fmt, m, n)) == text;
    Axes();
    RotateThenTranslateParses(fmt, m.rotation.x, shift, "x");
  }

  /** After a render the map's transform is the call list [rotateX, translateX]. */
  lemma RenderedMapCalls(w: Widget, env: Env)
    requires Valid(w)
    requires
      var m := Calculate(w.specs, env.cosDegrees).mapSpecs;
      Plain(env.fmt(m.rotation.x)) && Plain(env.fmt(Triangular(|w.groups|, m.offset) / 2.0))
    ensures
      var m := Calculate(w.specs, env.cosDegrees).mapSpecs;
      Calls(Render(w, env).mapNode) == Some([
        Css.Segment(Css.Rotate, "X", env.fmt(m.rotation.x)),
        Css.Segment(Css.Translate, "X", env.fmt(Triangular(|w.groups|, m.offset) / 2.0))])
  {
    MapCalls(env.fmt, Calculate(w.specs, env.cosDegrees).mapSpecs, |w.groups|);
  }

  /** The default widget: fold 40 degrees, map tilted 25 degrees on x, three
      groups of width 100 and ratio 4, hence height 400; the middle group is
      the centre. */
  lemma DefaultWidget(env: Env)
    ensures
      var w := Render(InitDOM(Defaults(), OneMatch).0, env);
      && w.specs.mapSpecs.foldAngle == 40.0
      && w.specs.mapSpecs.rotation == Rotation(25.0, 0.0, 0.0)
      && w.specs.pieces.amount == 3
      && w.specs.pieces.width == 100.0
      && w.specs.pieces.ratio == 4.0
      && w.specs.pieces.height == 400.0
      && w.specs.mapSpecs.offset == 2.0 * (100.0 - 100.0 * env.cosDegrees(40.0))
      && |w.groups| == 3
      && Center(w.groups) == Single(w.groups[1])
  {
  }

  /** After the default widget's first render the map is tilted by 25 degrees
      and shifted by half of three times the offset. */
  lemma DefaultWidgetMap(env: Env)
    ensures
      var w := Render(InitDOM(Defaults(), OneMatch).0, env);
      TransformText(w.mapNode)
        == RotateCSS(env.fmt, 25.0, "x").value + TranslateCSS(env.fmt, 3.0 * w.specs.mapSpecs.offset / 2.0, "x").value
  {
  }
}
