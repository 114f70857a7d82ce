/** `AwsObj.__to_string`: the text `ClassName(k1 : v1 , k2 : v2)` that
    `str()` and `repr()` show for an entity. */
module Render {
  import opened Text
  import opened Attributes
  import opened Entities

  /** `' : '.join((k, v))` for each item of the dictionary, in insertion order. */
  function PairTexts(d: Attrs): seq<string>
  {
    seq(|d.keys|, i requires 0 <= i < |d.keys| => Join([d.keys[i], d.values[d.keys[i]]], " : "))
  }

  /** The rendered text of an entity. */
  function Render(e: Entity): string
  {
    ClassName(e.kind) + "(" + Join(PairTexts(e.attrs), " , ") + ")"
  }

  /** `__to_string`: collects the `k : v` texts in a list, one per item,
      then joins them with ` , ` inside `ClassName(...)`. */
  method ToString(e: Entity) returns (s: string)
    ensures s == Render(e)
  {
    var cls := ClassName(e.kind);
    var keyValues: seq<string> := [];
    for i := 0 to |e.attrs.keys|
      invariant keyValues == PairTexts(e.attrs)[..i]
    {
      var k := e.attrs.keys[i];
      keyValues := keyValues + [Join([k, e.attrs.values[k]], " : ")];
    }
    assert keyValues == PairTexts(e.attrs);
    var attributes := Join(keyValues, " , ");
    s := cls + "(" + attributes + ")";
  }

  /** Each item shows as its key, ` : `, and its value. */
  lemma PairTextsShape(d: Attrs)
    ensures |PairTexts(d)| == |d.keys|
    ensures forall i :: 0 <= i < |d.keys| ==> PairTexts(d)[i] == d.keys[i] + " : " + d.values[d.keys[i]]
  {
    forall i | 0 <= i < |d.keys| {
      JoinTwo(d.keys[i], d.values[d.keys[i]], " : ");
    }
  }

  /** An entity without attributes renders as `ClassName()`. */
  lemma RenderNoAttributes(e: Entity)
    requires e.attrs.keys == []
    ensures Render(e) == ClassName(e.kind) + "()"
  {
  }

  /** The rendering opens with the class name and `(` and closes with `)`. */
  lemma RenderFrame(e: Entity)
    ensures |Render(e)| >= |ClassName(e.kind)| + 2
    ensures Render(e)[..|ClassName(e.kind)| + 1] == ClassName(e.kind) + "("
    ensures Render(e)[|Render(e)| - 1] == ')'
  {
  }

  /** Entities of different kinds never render alike: the class names
      differ in their fourth character. */
  lemma RenderDistinguishesKinds(e1: Entity, e2: Entity)
    requires e1.kind != e2.kind
    ensures Render(e1) != Render(e2)
  {
    RenderFrame(e1);
    RenderFrame(e2);
    assert Render(e1)[3] == ClassName(e1.kind)[3];
    assert Render(e2)[3] == ClassName(e2.kind)[3];
  }

  /** Every attribute of the entity shows in its rendering as `k : v`. */
  lemma RenderShowsEveryAttribute(e: Entity, i: nat)
    requires i < |e.attrs.keys|
    ensures exists off :: OccursAt(Render(e), e.attrs.keys[i] + " : " + e.attrs.values[e.attrs.keys[i]], off)
  {
    PairTextsShape(e.attrs);
    var parts := PairTexts(e.attrs);
    var text := parts[i];
    var inner := Join(parts, " , ");
    var cls := ClassName(e.kind);
    JoinHasPart(parts, " , ", i);
    var off :| OccursAt(inner, text, off);
    var shift := |cls| + 1;
    assert Render(e) == (cls + "(") + inner + ")";
    assert Render(e)[shift + off..shift + off + |text|] == text;
    assert OccursAt(Render(e), text, shift + off);
  }

  /** Rendering follows insertion order: assigning a new key appends its
      text at the end; reassigning an existing key changes its text in place. */
  lemma PairTextsPut(d: Attrs, k: string, v: string)
    ensures k !in d.values ==> PairTexts(Put(d, k, v)) == PairTexts(d) + [k + " : " + v]
    ensures k in d.values ==> |PairTexts(Put(d, k, v))| == |PairTexts(d)|
    ensures k in d.values ==> forall i :: 0 <= i < |d.keys| ==>
      PairTexts(Put(d, k, v))[i] == if d.keys[i] == k then k + " : " + v else PairTexts(d)[i]
  {
    PairTextsShape(d);
    PairTextsShape(Put(d, k, v));
  }
}
