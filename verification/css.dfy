/** A parser for the CSS `transform` text the builders write: a
    concatenation, without separators, of calls such as `rotateX(25deg)` and
    `translateX(-46.8px)`. It recovers what was written, so "what does this
    element's transform say" can be stated as a list of calls. */
module Css {
  import opened Wrappers
  import opened Text

  /** The two CSS transform functions the widget writes. */
  datatype Op = Translate | Rotate

  function Name(op: Op): string {
    match op
    case Translate => "translate"
    case Rotate => "rotate"
  }

  function Unit(op: Op): string {
    match op
    case Translate => "px"
    case Rotate => "deg"
  }

  /** One transform call: the function, the axis as written (upper case) and
      the text of the number. */
  datatype Segment = Segment(op: Op, axis: string, amount: string)

  predicate WellFormed(seg: Segment) {
    Plain(seg.axis) && Plain(seg.amount)
  }

  /** The text of one call, e.g. `translateX(12px)`. */
  function Call(seg: Segment): string {
    Name(seg.op) + seg.axis + "(" + seg.amount + Unit(seg.op) + ")"
  }

  function Serialize(segs: seq<Segment>): string {
    if segs == [] then "" else Call(segs[0]) + Serialize(segs[1..])
  }

  /** Reads `name` as `Name(op)` followed by an axis and `inner` as an amount
      followed by `Unit(op)`. */
  function ParseAs(op: Op, name: string, inner: string): (r: Option<Segment>)
    ensures r.Some? ==> r.value.op == op && WellFormed(r.value)
  {
    var n := Name(op);
    var u := Unit(op);
    if StartsWith(name, n) && EndsWith(inner, u) then
      StartsWithSplit(name, n);
      EndsWithSplit(inner, u);
      var seg := Segment(op, name[|n|..], inner[..|inner| - |u|]);
      if WellFormed(seg) then Some(seg) else None
    else None
  }

  /** Parses one complete call. */
  function ParseCall(s: string): (r: Option<Segment>)
    ensures r.Some? ==> WellFormed(r.value)
  {
    match IndexOf(s, '(')
    case None => None
    case Some(open) =>
      if s[|s| - 1] != ')' then None
      else
        var name := s[..open];
        var inner := s[open + 1..|s| - 1];
        var t := ParseAs(Translate, name, inner);
        if t.Some? then t else ParseAs(Rotate, name, inner)
  }

  /** Reading a name and an argument never invents text. */
  lemma ParseAsSound(op: Op, name: string, inner: string)
    requires ParseAs(op, name, inner).Some?
    ensures Call(ParseAs(op, name, inner).value) == name + "(" + inner + ")"
  {
    StartsWithSplit(name, Name(op));
    EndsWithSplit(inner, Unit(op));
  }

  /** Parsing one call never invents text: the call serializes back to its input. */
  lemma ParseCallSound(s: string)
    requires ParseCall(s).Some?
    ensures Call(ParseCall(s).value) == s
  {
    var open := IndexOf(s, '(').value;
    assert s[|s| - 1] == ')' && open < |s| - 1;
    var name := s[..open];
    var inner := s[open + 1..|s| - 1];
    assert s == name + "(" + inner + ")" by {
      Around(s, open);
    }
    if ParseAs(Translate, name, inner).Some? {
      ParseAsSound(Translate, name, inner);
    } else {
      ParseAsSound(Rotate, name, inner);
    }
  }

  /** Splits a transform value at each closing parenthesis and parses the calls. */
  function ParseTransform(s: string): (r: Option<seq<Segment>>)
    decreases |s|
  {
    if s == [] then Some([])
    else
      var close := IndexOf(s, ')');
      if close.None? then None
      else
        var seg := ParseCall(s[..close.value + 1]);
        var rest := ParseTransform(s[close.value + 1..]);
        if seg.None? || rest.None? then None else Some([seg.value] + rest.value)
  }

  predicate AllWellFormed(segs: seq<Segment>) {
    forall i :: 0 <= i < |segs| ==> WellFormed(segs[i])
  }

  /** Whatever the parser accepts is well formed and serializes back to the input. */
  lemma {:induction false} ParseSound(s: string)
    requires ParseTransform(s).Some?
    ensures AllWellFormed(ParseTransform(s).value)
    ensures Serialize(ParseTransform(s).value) == s
    decreases |s|
  {
    if s != [] {
      ParseStepSome(s);
      var close := IndexOf(s, ')').value;
      var head := s[..close + 1];
      var tail := s[close + 1..];
      ParseSound(tail);
      var seg := ParseCall(head).value;
      ParseCallSound(head);
      var rest := ParseTransform(tail).value;
      SerializeCons(seg, rest);
      assert AllWellFormed([seg] + rest) by {
        forall i | 0 <= i < |[seg] + rest| ensures WellFormed(([seg] + rest)[i]) {
          if i > 0 { assert ([seg] + rest)[i] == rest[i - 1]; }
        }
      }
      assert s == head + tail;
    }
  }

  /** A non-empty value the parser accepts is one call up to the first `)`
      followed by a value the parser accepts. */
  lemma ParseStepSome(s: string)
    requires s != [] && ParseTransform(s).Some?
    ensures IndexOf(s, ')').Some?
    ensures var close := IndexOf(s, ')').value;
      && ParseCall(s[..close + 1]).Some?
      && ParseTransform(s[close + 1..]).Some?
      && ParseTransform(s).value == [ParseCall(s[..close + 1]).value] + ParseTransform(s[close + 1..]).value
  {
    var close := IndexOf(s, ')');
    assert close.Some?;
    var seg := ParseCall(s[..close.value + 1]);
    var rest := ParseTransform(s[close.value + 1..]);
    assert seg.Some? && rest.Some?;
  }

  lemma SerializeCons(seg: Segment, rest: seq<Segment>)
    ensures Serialize([seg] + rest) == Call(seg) + Serialize(rest)
  {
    var segs := [seg] + rest;
    assert segs[0] == seg && segs[1..] == rest;
  }

  lemma {:induction false} SerializeAppend(a: seq<Segment>, b: seq<Segment>)
    ensures Serialize(a + b) == Serialize(a) + Serialize(b)
  {
    if a == [] {
      assert a + b == b;
    } else {
      var ab := a + b;
      assert ab[0] == a[0] && ab[1..] == a[1..] + b;
      SerializeAppend(a[1..], b);
      var c := Call(a[0]);
      assert Serialize(ab) == c + (Serialize(a[1..]) + Serialize(b));
      assert Serialize(a) == c + Serialize(a[1..]);
      AppendAssoc(c, Serialize(a[1..]), Serialize(b));
    }
  }

  lemma AppendAssoc(x: string, y: string, z: string)
    ensures x + (y + z) == (x + y) + z
  {
  }

  /** One step of `ParseTransform`: the first call ends at the first `)`. */
  lemma ParseTransformStep(head: string, tail: string)
    requires ')' !in head
    ensures ParseTransform(head + ")" + tail) ==
      var seg := ParseCall(head + ")");
      var rest := ParseTransform(tail);
      if seg.None? || rest.None? then None else Some([seg.value] + rest.value)
  {
    var s := head + ")" + tail;
    assert s == head + [')'] + tail;
    IndexOfFirst(head, ')', tail);
    assert s[..|head| + 1] == head + ")";
    assert s[|head| + 1..] == tail;
  }

  lemma ParseAsWritten(op: Op, axis: string, amount: string)
    requires Plain(axis) && Plain(amount)
    ensures ParseAs(op, Name(op) + axis, amount + Unit(op)) == Some(Segment(op, axis, amount))
  {
    var name := Name(op) + axis;
    var inner := amount + Unit(op);
    StartsWithAppend(Name(op), axis);
    EndsWithAppend(amount, Unit(op));
    assert name[|Name(op)|..] == axis;
    assert inner[..|inner| - |Unit(op)|] == amount;
  }

  lemma ParseAsRotateName(axis: string, inner: string)
    ensures ParseAs(Translate, Name(Rotate) + axis, inner).None?
  {
    assert (Name(Rotate) + axis)[0] == 'r';
  }

  lemma ParseCallSplit(name: string, inner: string)
    requires '(' !in name
    ensures ParseCall(name + "(" + inner + ")") ==
      var t := ParseAs(Translate, name, inner);
      if t.Some? then t else ParseAs(Rotate, name, inner)
  {
    var s := name + "(" + inner + ")";
    assert s == name + ['('] + (inner + ")");
    IndexOfFirst(name, '(', inner + ")");
    assert s[..|name|] == name;
    assert s[|name| + 1..|s| - 1] == inner;
  }

  /** The parser recovers every well-formed call. */
  lemma CallRoundTrip(seg: Segment)
    requires WellFormed(seg)
    ensures ParseCall(Call(seg)) == Some(seg)
  {
    var name := Name(seg.op) + seg.axis;
    var inner := seg.amount + Unit(seg.op);
    assert '(' !in Name(seg.op);
    assert '(' !in name;
    assert Call(seg) == name + "(" + inner + ")";
    ParseCallSplit(name, inner);
    ParseAsWritten(seg.op, seg.axis, seg.amount);
    if seg.op == Rotate {
      ParseAsRotateName(seg.axis, inner);
    }
  }

  /** A well-formed call is its head, free of `)`, followed by one `)`. */
  function CallHead(seg: Segment): (head: string)
    requires WellFormed(seg)
    ensures ')' !in head && Call(seg) == head + ")"
  {
    assert ')' !in Name(seg.op) && ')' !in Unit(seg.op);
    Name(seg.op) + seg.axis + "(" + seg.amount + Unit(seg.op)
  }

  /** Parsing inverts serialization of well-formed calls. */
  lemma {:induction false} ParseSerialize(segs: seq<Segment>)
    requires AllWellFormed(segs)
    ensures ParseTransform(Serialize(segs)) == Some(segs)
  {
    if segs != [] {
      var seg := segs[0];
      var rest := segs[1..];
      assert segs == [seg] + rest;
      SerializeCons(seg, rest);
      ParseSerialize(rest);
      ParseFirstCall(seg, Serialize(rest), rest);
    }
  }

  /** A well-formed call in front of a parseable value is parsed off first. */
  lemma ParseFirstCall(seg: Segment, tail: string, rest: seq<Segment>)
    requires WellFormed(seg) && ParseTransform(tail) == Some(rest)
    ensures ParseTransform(Call(seg) + tail) == Some([seg] + rest)
  {
    var head := CallHead(seg);
    ParseTransformStep(head, tail);
    CallRoundTrip(seg);
  }

  /** Parsing distributes over concatenation of two parseable values. */
  lemma ParseConcat(a: string, b: string)
    requires ParseTransform(a).Some? && ParseTransform(b).Some?
    ensures ParseTransform(a + b) == Some(ParseTransform(a).value + ParseTransform(b).value)
  {
    var sa := ParseTransform(a).value;
    var sb := ParseTransform(b).value;
    ParseSound(a);
    ParseSound(b);
    SerializeAppend(sa, sb);
    assert AllWellFormed(sa + sb);
    ParseSerialize(sa + sb);
  }

  /** Parsing one call's text as a whole transform value gives that call. */
  lemma SingleCallRoundTrip(seg: Segment)
    requires WellFormed(seg)
    ensures ParseTransform(Call(seg)) == Some([seg])
  {
    var one := [seg];
    assert Call(seg) == Serialize(one) by {
      assert one[0] == seg && one[1..] == [];
      assert Serialize(one) == Call(seg) + Serialize([]);
    }
    ParseSerialize(one);
  }

  /** Two values that each parse to one call parse, concatenated, to both. */
  lemma ParsePair(a: string, b: string, x: Segment, y: Segment)
    requires ParseTransform(a) == Some([x]) && ParseTransform(b) == Some([y])
    ensures ParseTransform(a + b) == Some([x, y])
  {
    ParseConcat(a, b);
    assert [x] + [y] == [x, y];
  }
}
