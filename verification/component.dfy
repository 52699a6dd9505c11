/** The chat component tree of `rustmine_lib/src/component.rs`: the five
    component kinds, the style they share, and the builders that extend
    them.  The JSON they are serialised to is left out. */
module Component {
  import opened Wrappers

  /** An `f32`, by its bits. */
  datatype Float = Float(bits: nat)

  /** `[f32; 4]`: red, green, blue and alpha. */
  type Rgba = s: seq<Float> | |s| == 4 witness [Float(0), Float(0), Float(0), Float(0)]

  datatype Style = Style(
    bold: Option<bool>,
    italic: Option<bool>,
    underlined: Option<bool>,
    strikethrough: Option<bool>,
    obfuscated: Option<bool>,
    color: Option<string>,
    shadowColor: Option<Rgba>)

  datatype ScoreData = ScoreData(name: string, objective: string)

  /** `Component`; every kind has a style and the children in `extra`. */
  datatype Component =
    | Text(text: string, style: Style, extra: seq<Component>)
    | Score(score: ScoreData, style: Style, extra: seq<Component>)
    | Selector(selector: string, separator: Option<Component>, style: Style, extra: seq<Component>)
    | Keybind(keybind: string, style: Style, extra: seq<Component>)
    | Translation(translate: string, fallback: Option<string>, with: Option<seq<Component>>, style: Style,
                  extra: seq<Component>)

  /** `Style::new`, which is `Style::default`: every field `None`. */
  function NewStyle(): (s: Style)
    ensures s.bold.None? && s.italic.None? && s.underlined.None? && s.strikethrough.None?
    ensures s.obfuscated.None? && s.color.None? && s.shadowColor.None?
  {
    Style(None, None, None, None, None, None, None)
  }

  /** `Style::bold`. */
  function Bold(s: Style, v: bool): (r: Style)
    ensures r.bold == Some(v)
    ensures r == s.(bold := r.bold)
  {
    s.(bold := Some(v))
  }

  /** `Style::color`. */
  function Color(s: Style, c: string): (r: Style)
    ensures r.color == Some(c)
    ensures r == s.(color := r.color)
  {
    s.(color := Some(c))
  }

  /** `Component::append`, and `ComponentTrait::append` on each kind: the
      child goes at the end of `extra`. */
  function Append(c: Component, child: Component): (r: Component)
    ensures r.extra == c.extra + [child]
    ensures r == c.(extra := r.extra)
  {
    c.(extra := c.extra + [child])
  }

  /** `ComponentTrait::style`: the whole style is replaced. */
  function WithStyle(c: Component, s: Style): (r: Component)
    ensures r.style == s
    ensures r == c.(style := s)
  {
    c.(style := s)
  }

  /** The `text!` macro. */
  function TextOf(t: string): (c: Component)
    ensures c.Text? && c.text == t && c.style == NewStyle() && c.extra == []
  {
    Text(t, NewStyle(), [])
  }

  /** The `keybind!` macro. */
  function KeybindOf(k: string): (c: Component)
    ensures c.Keybind? && c.keybind == k && c.style == NewStyle() && c.extra == []
  {
    Keybind(k, NewStyle(), [])
  }

  /** The `score!` macro. */
  function ScoreOf(name: string, objective: string): (c: Component)
    ensures c.Score? && c.score == ScoreData(name, objective) && c.style == NewStyle() && c.extra == []
  {
    Score(ScoreData(name, objective), NewStyle(), [])
  }

  /** The `selector!` macro. */
  function SelectorOf(sel: string): (c: Component)
    ensures c.Selector? && c.selector == sel && c.separator.None? && c.style == NewStyle() && c.extra == []
  {
    Selector(sel, None, NewStyle(), [])
  }

  /** Appending children one at a time lists them in that order. */
  lemma {:induction false} AppendInOrder(c: Component, a: Component, b: Component)
    ensures Append(Append(c, a), b).extra == c.extra + [a, b]
    ensures Append(Append(c, a), b) == c.(extra := c.extra + [a, b])
  {
  }

  // --------------------------------------------------------------- styled!

  /** One `field: value` of a `styled!` invocation. */
  datatype Setting =
    | SetBold(b: bool)
    | SetItalic(i: bool)
    | SetUnderlined(u: bool)
    | SetStrikethrough(s: bool)
    | SetObfuscated(o: bool)
    | SetColor(c: string)
    | SetShadowColor(rgba: Rgba)

  /** `style.field = Some(value)` for one setting. */
  function Apply(s: Style, f: Setting): Style {
    match f
    case SetBold(v) => s.(bold := Some(v))
    case SetItalic(v) => s.(italic := Some(v))
    case SetUnderlined(v) => s.(underlined := Some(v))
    case SetStrikethrough(v) => s.(strikethrough := Some(v))
    case SetObfuscated(v) => s.(obfuscated := Some(v))
    case SetColor(v) => s.(color := Some(v))
    case SetShadowColor(v) => s.(shadowColor := Some(v))
  }

  /** The settings applied in order. */
  function ApplyAll(s: Style, fs: seq<Setting>): Style
    decreases |fs|
  {
    if |fs| == 0 then s else ApplyAll(Apply(s, fs[0]), fs[1..])
  }

  /** The `styled!` macro: the settings go into the component's style; the
      kind, the content and the children stay. */
  function Styled(c: Component, fs: seq<Setting>): (r: Component)
    ensures r == c.(style := r.style)
  {
    c.(style := ApplyAll(c.style, fs))
  }

  /** The style fields a setting can name. */
  datatype Field = BoldField | ItalicField | UnderlinedField | StrikethroughField | ObfuscatedField | ColorField
                 | ShadowColorField

  /** The field a setting writes. */
  function FieldOf(f: Setting): Field {
    match f
    case SetBold(_) => BoldField
    case SetItalic(_) => ItalicField
    case SetUnderlined(_) => UnderlinedField
    case SetStrikethrough(_) => StrikethroughField
    case SetObfuscated(_) => ObfuscatedField
    case SetColor(_) => ColorField
    case SetShadowColor(_) => ShadowColorField
  }

  /** What a style holds in one field, as the setting that would put it
      there. */
  function Value(s: Style, k: Field): (r: Option<Setting>)
    ensures r.Some? ==> FieldOf(r.value) == k
  {
    match k
    case BoldField => if s.bold.Some? then Some(SetBold(s.bold.value)) else None
    case ItalicField => if s.italic.Some? then Some(SetItalic(s.italic.value)) else None
    case UnderlinedField => if s.underlined.Some? then Some(SetUnderlined(s.underlined.value)) else None
    case StrikethroughField => if s.strikethrough.Some? then Some(SetStrikethrough(s.strikethrough.value)) else None
    case ObfuscatedField => if s.obfuscated.Some? then Some(SetObfuscated(s.obfuscated.value)) else None
    case ColorField => if s.color.Some? then Some(SetColor(s.color.value)) else None
    case ShadowColorField => if s.shadowColor.Some? then Some(SetShadowColor(s.shadowColor.value)) else None
  }

  /** The last setting of a list that writes field `k`, if any. */
  function LastFor(fs: seq<Setting>, k: Field): (r: Option<Setting>)
    ensures r.Some? ==> r.value in fs && FieldOf(r.value) == k
    decreases |fs|
  {
    if |fs| == 0 then None
    else if FieldOf(fs[|fs| - 1]) == k then Some(fs[|fs| - 1])
    else LastFor(fs[..|fs| - 1], k)
  }

  /** Two styles are equal when every field holds the same. */
  lemma {:induction false} StyleExtensional(a: Style, b: Style)
    requires forall k :: Value(a, k) == Value(b, k)
    ensures a == b
  {
    assert Value(a, BoldField) == Value(b, BoldField);
    assert Value(a, ItalicField) == Value(b, ItalicField);
    assert Value(a, UnderlinedField) == Value(b, UnderlinedField);
    assert Value(a, StrikethroughField) == Value(b, StrikethroughField);
    assert Value(a, ObfuscatedField) == Value(b, ObfuscatedField);
    assert Value(a, ColorField) == Value(b, ColorField);
    assert Value(a, ShadowColorField) == Value(b, ShadowColorField);
  }

  /** Applying the settings from the back: the last one is applied last. */
  lemma {:induction false} ApplyAllSnoc(s: Style, fs: seq<Setting>, f: Setting)
    ensures ApplyAll(s, fs + [f]) == Apply(ApplyAll(s, fs), f)
    decreases |fs|
  {
    if |fs| > 0 {
      assert (fs + [f])[1..] == fs[1..] + [f];
      ApplyAllSnoc(Apply(s, fs[0]), fs[1..], f);
    }
  }

  /** One setting writes its own field and leaves the others as they were. */
  lemma {:induction false} ApplyOneField(s: Style, f: Setting, k: Field)
    ensures Value(Apply(s, f), k) == if FieldOf(f) == k then Some(f) else Value(s, k)
  {
  }

  /** After `styled!`, each field holds the last value listed for it, or
      what it held before when none is listed. */
  lemma {:induction false} StyledFields(s: Style, fs: seq<Setting>, k: Field)
    ensures Value(ApplyAll(s, fs), k) == if LastFor(fs, k).Some? then LastFor(fs, k) else Value(s, k)
    decreases |fs|
  {
    if |fs| > 0 {
      var n := |fs| - 1;
      assert fs == fs[..n] + [fs[n]];
      ApplyAllSnoc(s, fs[..n], fs[n]);
      StyledFields(s, fs[..n], k);
      ApplyOneField(ApplyAll(s, fs[..n]), fs[n], k);
    }
  }

  /** Listing the same settings in the same order per field gives the same
      style, whatever the order across fields. */
  lemma {:induction false} StyledDependsOnLastPerField(s: Style, fs: seq<Setting>, gs: seq<Setting>)
    requires forall k :: LastFor(fs, k) == LastFor(gs, k)
    ensures ApplyAll(s, fs) == ApplyAll(s, gs)
  {
    forall k
      ensures Value(ApplyAll(s, fs), k) == Value(ApplyAll(s, gs), k)
    {
      StyledFields(s, fs, k);
      StyledFields(s, gs, k);
    }
    StyleExtensional(ApplyAll(s, fs), ApplyAll(s, gs));
  }

  /** `styled!` with only bold listed agrees with the `Style::bold`
      builder, and with only a colour with `Style::color`. */
  lemma {:induction false} StyledMatchesBuilders(c: Component, v: bool, col: string)
    ensures Styled(c, [SetBold(v)]) == WithStyle(c, Bold(c.style, v))
    ensures Styled(c, [SetColor(col)]) == WithStyle(c, Color(c.style, col))
  {
    assert ApplyAll(c.style, [SetBold(v)]) == Apply(c.style, SetBold(v));
    assert ApplyAll(c.style, [SetColor(col)]) == Apply(c.style, SetColor(col));
  }
}
