/** The static helpers of the widget (index.js, class `Helpers`): the CSS
    transform-string builders, their application to an element's inline
    style, the shape of a selector lookup, and the choice of the centre of a
    list. Element creation is not part of this model. */
module Helpers {
  import opened Wrappers
  import opened Text
  import opened Css

  /** How the JavaScript runtime writes a number inside a template literal.
      The model never looks inside it. */
  type Format = real -> string

  /** The four thrown errors, told apart by the operation that throws:
      `Missing axis in translate|rotate function.` from the builders, and
      `Can't apply transform on non DOM element` from `translate`, or the
      same message naming the element from `rotate`. */
  datatype Error = MissingAxis(op: Op) | NotStylable(op: Op)

  /** What `Helpers.get` gives back for a selector: `undefined` when nothing
      matches, the element itself when exactly one does, and the whole
      `NodeList` when several do. Only the first is falsy. */
  datatype Lookup = NoMatch | OneMatch | SeveralMatches

  /** `Helpers.get`, as a function of how many elements the selector matches. */
  function Get(matches: nat): (r: Lookup)
    ensures r.NoMatch? <==> matches == 0
    ensures r.OneMatch? <==> matches == 1
    ensures r.SeveralMatches? <==> matches > 1
  {
    if matches == 1 then OneMatch else if matches == 0 then NoMatch else SeveralMatches
  }

  /** The shared shape of both builders. A missing axis (`undefined`, `null`
      or `''`, all falsy and all written here as the empty string) throws. */
  function Build(op: Op, fmt: Format, value: real, axis: string): (r: Result<string, Error>)
    ensures r.Failure? <==> axis == ""
    ensures r.Failure? ==> r.error == MissingAxis(op)
  {
    if axis == "" then Failure(MissingAxis(op))
    else Success(Call(Segment(op, Upper(axis), fmt(value))))
  }

  /** What a builder writes parses back as the one call it was asked for,
      as long as neither the axis nor the number text contains parentheses. */
  lemma BuildParses(op: Op, fmt: Format, value: real, axis: string)
    requires axis != "" && Plain(axis) && Plain(fmt(value))
    ensures ParseTransform(Build(op, fmt, value, axis).value) == Some([Segment(op, Upper(axis), fmt(value))])
  {
    UpperKeepsPlain(axis);
    SingleCallRoundTrip(Segment(op, Upper(axis), fmt(value)));
  }

  /** `Helpers.translateCSS`: `translate` + upper-cased axis + `(value px)`. */
  function TranslateCSS(fmt: Format, value: real, axis: string): (r: Result<string, Error>)
    ensures r.Failure? <==> axis == ""
    ensures r.Failure? ==> r.error == MissingAxis(Op.Translate)
  {
    Build(Op.Translate, fmt, value, axis)
  }

  /** The text `Helpers.translateCSS` builds for a given axis. */
  lemma TranslateCSSText(fmt: Format, value: real, axis: string)
    requires axis != ""
    ensures TranslateCSS(fmt, value, axis).value == "translate" + Upper(axis) + "(" + fmt(value) + "px)"
  {
  }

  /** The text `Helpers.translateCSS` builds reads back as that one translation. */
  lemma TranslateCSSParses(fmt: Format, value: real, axis: string)
    requires axis != "" && Plain(axis) && Plain(fmt(value))
    ensures ParseTransform(TranslateCSS(fmt, value, axis).value) ==
      Some([Segment(Op.Translate, Upper(axis), fmt(value))])
  {
    BuildParses(Op.Translate, fmt, value, axis);
  }

  /** `Helpers.rotateCSS`: `rotate` + upper-cased axis + `(value deg)`. */
  function RotateCSS(fmt: Format, value: real, axis: string): (r: Result<string, Error>)
    ensures r.Failure? <==> axis == ""
    ensures r.Failure? ==> r.error == MissingAxis(Op.Rotate)
  {
    Build(Op.Rotate, fmt, value, axis)
  }

  /** The text `Helpers.rotateCSS` builds for a given axis. */
  lemma RotateCSSText(fmt: Format, value: real, axis: string)
    requires axis != ""
    ensures RotateCSS(fmt, value, axis).value == "rotate" + Upper(axis) + "(" + fmt(value) + "deg)"
  {
  }

  /** The text `Helpers.rotateCSS` builds reads back as that one rotation. */
  lemma RotateCSSParses(fmt: Format, value: real, axis: string)
    requires axis != "" && Plain(axis) && Plain(fmt(value))
    ensures ParseTransform(RotateCSS(fmt, value, axis).value) ==
      Some([Segment(Op.Rotate, Upper(axis), fmt(value))])
  {
    BuildParses(Op.Rotate, fmt, value, axis);
  }

  /** A rotation text followed by a translation text reads back as those two
      calls, in that order. */
  lemma RotateThenTranslateParses(fmt: Format, angle: real, shift: real, axis: string)
    requires axis != "" && Plain(axis) && Plain(fmt(angle)) && Plain(fmt(shift))
    ensures ParseTransform(RotateCSS(fmt, angle, axis).value + TranslateCSS(fmt, shift, axis).value) ==
      Some([Segment(Op.Rotate, Upper(axis), fmt(angle)), Segment(Op.Translate, Upper(axis), fmt(shift))])
  {
    RotateCSSParses(fmt, angle, axis);
    TranslateCSSParses(fmt, shift, axis);
    ParsePair(RotateCSS(fmt, angle, axis).value, TranslateCSS(fmt, shift, axis).value,
      Segment(Op.Rotate, Upper(axis), fmt(angle)), Segment(Op.Translate, Upper(axis), fmt(shift)));
  }

  /** An element's inline style; only `transform` is modelled. `None` is the
      `null` that `Paper.reset` writes, `Some("")` the empty string. */
  datatype Style = Style(transform: Option<string>)

  /** An element; `style == None` stands for a value without a `style`
      property, i.e. not a DOM element. */
  datatype Element = Element(style: Option<Style>)

  predicate Stylable(e: Element) {
    e.style.Some?
  }

  function TransformOf(e: Element): Option<string> {
    if e.style.Some? then e.style.value.transform else None
  }

  /** JavaScript truthiness of `element.style.transform`. */
  predicate HasTransform(e: Element) {
    TransformOf(e).Some? && TransformOf(e).value != ""
  }

  /** The transform as text; `null` reads as the empty string. */
  function TransformText(e: Element): string {
    if TransformOf(e).Some? then TransformOf(e).value else ""
  }

  /** The calls an element's transform consists of, if it parses. */
  function Calls(e: Element): Option<seq<Segment>> {
    ParseTransform(TransformText(e))
  }

  function WithTransform(e: Element, t: string): Element
    requires Stylable(e)
  {
    e.(style := Some(e.style.value.(transform := Some(t))))
  }

  /** `Helpers.rotate`: both branches of the source assign the same value, so
      the previous transform is always discarded. */
  function Rotate(fmt: Format, e: Element, value: real, axis: string): (r: Result<Element, Error>)
    ensures !Stylable(e) ==> r == Failure(NotStylable(Op.Rotate))
    ensures Stylable(e) && axis == "" ==> r == Failure(MissingAxis(Op.Rotate))
    ensures r.Success? <==> Stylable(e) && axis != ""
    ensures r.Success? ==> r.value == Element(Some(Style(Some(RotateCSS(fmt, value, axis).value))))
  {
    if !Stylable(e) then Failure(NotStylable(Op.Rotate))
    else if HasTransform(e) then
      var css :- RotateCSS(fmt, value, axis);
      Success(WithTransform(e, css))
    else
      var css :- RotateCSS(fmt, value, axis);
      Success(WithTransform(e, css))
  }

  /** `Helpers.translate`: a truthy transform is extended with `+=`, otherwise
      replaced; either way the old text survives as a prefix. */
  function Translate(fmt: Format, e: Element, value: real, axis: string): (r: Result<Element, Error>)
    ensures !Stylable(e) ==> r == Failure(NotStylable(Op.Translate))
    ensures Stylable(e) && axis == "" ==> r == Failure(MissingAxis(Op.Translate))
    ensures r.Success? <==> Stylable(e) && axis != ""
    ensures r.Success? ==>
      r.value == Element(Some(Style(Some(TransformText(e) + TranslateCSS(fmt, value, axis).value))))
  {
    if !Stylable(e) then Failure(NotStylable(Op.Translate))
    else if HasTransform(e) then
      var css :- TranslateCSS(fmt, value, axis);
      Success(WithTransform(e, TransformOf(e).value + css))
    else
      var css :- TranslateCSS(fmt, value, axis);
      assert TransformText(e) + css == css;
      Success(WithTransform(e, css))
  }

  /** Only the last of two rotations survives. */
  lemma RotateForgetsEarlier(fmt: Format, e: Element, v1: real, a1: string, v2: real, a2: string)
    requires a1 != ""
    ensures Rotate(fmt, e, v1, a1).Success? ==>
      Rotate(fmt, Rotate(fmt, e, v1, a1).value, v2, a2) == Rotate(fmt, e, v2, a2)
    ensures Rotate(fmt, e, v1, a1).Success? && a2 != "" && Plain(a2) && Plain(fmt(v2)) ==>
      Calls(Rotate(fmt, Rotate(fmt, e, v1, a1).value, v2, a2).value) == Some([Segment(Op.Rotate, Upper(a2), fmt(v2))])
  {
    if Rotate(fmt, e, v1, a1).Success? && a2 != "" && Plain(a2) && Plain(fmt(v2)) {
      RotateCSSParses(fmt, v2, a2);
    }
  }

  /** A translation appends exactly one call to whatever calls were there. */
  lemma TranslateAppendsCall(fmt: Format, e: Element, value: real, axis: string)
    requires Calls(e).Some? && Plain(axis) && Plain(fmt(value))
    ensures Translate(fmt, e, value, axis).Success? ==>
      Calls(Translate(fmt, e, value, axis).value) == Some(Calls(e).value + [Segment(Op.Translate, Upper(axis), fmt(value))])
  {
    var r := Translate(fmt, e, value, axis);
    if r.Success? {
      var css := TranslateCSS(fmt, value, axis).value;
      TranslateCSSParses(fmt, value, axis);
      assert TransformText(r.value) == TransformText(e) + css;
      ParseConcat(TransformText(e), css);
    }
  }

  /** What `Helpers.center` returns: one element for an odd length, a pair of
      reads for an even one. */
  datatype Middle<T> = Single(item: T) | Pair(left: Option<T>, right: Option<T>)

  /** A JavaScript array read: out of range gives `undefined`. */
  function At<T>(s: seq<T>, k: int): Option<T> {
    if 0 <= k < |s| then Some(s[k]) else None
  }

  /** `Helpers.center`. On an empty array the source reads indices -1 and 0,
      both `undefined`; it does not throw. */
  function Center<T>(s: seq<T>): (r: Middle<T>)
    ensures r.Single? <==> |s| % 2 == 1
    ensures r.Single? ==> exists k :: 0 <= k < |s| && k == |s| - 1 - k && r.item == s[k]
    ensures |s| > 0 && r.Pair? ==>
      exists k :: 0 <= k && k + 1 < |s| && k == |s| - 1 - (k + 1) && r == Pair(Some(s[k]), Some(s[k + 1]))
    ensures |s| == 0 ==> r == Pair(None, None)
  {
    var middle := |s| / 2;
    if |s| % 2 == 0 then Pair(At(s, middle - 1), At(s, middle))
    else Single(s[middle])
  }

  function Reverse<T>(s: seq<T>): (r: seq<T>)
    ensures |r| == |s|
    ensures forall i :: 0 <= i < |s| ==> r[i] == s[|s| - 1 - i]
  {
    seq(|s|, i requires 0 <= i < |s| => s[|s| - 1 - i])
  }

  function Mirror<T>(m: Middle<T>): Middle<T> {
    match m
    case Single(x) => Single(x)
    case Pair(l, r) => Pair(r, l)
  }

  /** The centre is symmetric: reversing the array mirrors it. */
  lemma CenterMirror<T>(s: seq<T>)
    ensures Center(Reverse(s)) == Mirror(Center(s))
  {
    var n := |s|;
    var t := Reverse(s);
    if n % 2 == 1 {
      assert t[n / 2] == s[n - 1 - n / 2];
    } else if n > 0 {
      assert t[n / 2 - 1] == s[n / 2];
      assert t[n / 2] == s[n / 2 - 1];
    }
  }
}
