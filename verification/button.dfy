/** The shared button component (libs/ui button.component.ts): its inputs
    and defaults, the click gate, the native `disabled` attribute and the
    class list. */
module Button {
  import opened Wrappers

  datatype Variant = Primary | Secondary | Success | Danger | Warning | Info
  datatype Size = Small | Medium | Large
  datatype ButtonType = ButtonKind | SubmitKind | ResetKind

  /** The component's inputs. */
  datatype Props = Props(variant: Variant, size: Size, buttonType: ButtonType,
                         disabled: bool, loading: bool, loadingText: string)

  const DefaultLoadingText: string := "Loading..."

  /** The inputs before any binding. */
  const Default: Props := Props(Primary, Medium, ButtonKind, false, false, DefaultLoadingText)

  function VariantName(v: Variant): string {
    match v
    case Primary => "primary"
    case Secondary => "secondary"
    case Success => "success"
    case Danger => "danger"
    case Warning => "warning"
    case Info => "info"
  }

  function SizeName(s: Size): string {
    match s
    case Small => "small"
    case Medium => "medium"
    case Large => "large"
  }

  function TypeName(t: ButtonType): string {
    match t
    case ButtonKind => "button"
    case SubmitKind => "submit"
    case ResetKind => "reset"
  }

  /** The native `disabled` attribute: set while disabled or loading. */
  function NativeDisabled(p: Props): (b: bool)
    ensures b <==> p.disabled || p.loading
    ensures !b ==> !p.disabled && !p.loading
  {
    p.disabled || p.loading
  }

  /** `onClick`: the events `clicked` emits for one click, which is the
      click itself exactly when the button is neither disabled nor loading. */
  function OnClick<E>(p: Props, event: E): (emitted: seq<E>)
    ensures |emitted| <= 1
    ensures |emitted| == 1 <==> !p.disabled && !p.loading
    ensures |emitted| == 1 ==> emitted[0] == event
  {
    if !p.disabled && !p.loading then [event] else []
  }

  /** The click gate and the native attribute agree: a click is passed on
      exactly when the rendered button is enabled. With the defaults it is. */
  lemma ClickGateMatchesAttribute<E>(p: Props, event: E)
    ensures OnClick(p, event) == [event] <==> !NativeDisabled(p)
    ensures OnClick(p, event) == [] <==> NativeDisabled(p)
    ensures OnClick(Default, event) == [event]
  {
  }

  /** `getButtonClasses`. */
  function ButtonClasses(p: Props): (r: string)
    ensures |r| > 8 && r[..8] == "btn btn-"
  {
    "btn btn-" + VariantName(p.variant) + " btn-" + SizeName(p.size)
  }

  function VariantNamed(name: string): Option<Variant> {
    if name == "primary" then Some(Primary)
    else if name == "secondary" then Some(Secondary)
    else if name == "success" then Some(Success)
    else if name == "danger" then Some(Danger)
    else if name == "warning" then Some(Warning)
    else if name == "info" then Some(Info)
    else None
  }

  function SizeNamed(name: string): Option<Size> {
    if name == "small" then Some(Small)
    else if name == "medium" then Some(Medium)
    else if name == "large" then Some(Large)
    else None
  }

  /** `s` cut at its first space: what precedes it and what follows it. */
  function SplitAtSpace(s: string): (r: (string, string))
    ensures ' ' !in r.0
    ensures |r.0| + |r.1| <= |s|
  {
    if |s| == 0 then ("", "")
    else if s[0] == ' ' then ("", s[1..])
    else
      var (head, tail) := SplitAtSpace(s[1..]);
      ([s[0]] + head, tail)
  }

  lemma {:induction false} SplitAtSpaceJoin(a: string, b: string)
    requires ' ' !in a
    ensures SplitAtSpace(a + " " + b) == (a, b)
  {
    if |a| > 0 {
      SplitAtSpaceJoin(a[1..], b);
      assert (a + " " + b)[1..] == a[1..] + " " + b;
      assert a == [a[0]] + a[1..];
    } else {
      assert a + " " + b == " " + b;
    }
  }

  /** Reads a variant and a size back from a class list. */
  function ParseClasses(s: string): Option<(Variant, Size)> {
    if |s| < 8 || s[..8] != "btn btn-" then None
    else
      var (v, rest) := SplitAtSpace(s[8..]);
      if |rest| < 4 || rest[..4] != "btn-" then None
      else match (VariantNamed(v), SizeNamed(rest[4..]))
        case (Some(variant), Some(size)) => Some((variant, size))
        case _ => None
  }

  /** The class list names the variant and the size unambiguously: it reads
      back as them, so two buttons share a class list only when they share
      variant and size. */
  lemma ClassesRoundTrip(p: Props)
    ensures ParseClasses(ButtonClasses(p)) == Some((p.variant, p.size))
  {
    var s := ButtonClasses(p);
    var v := VariantName(p.variant);
    assert VariantNamed(v) == Some(p.variant);
    assert SizeNamed(SizeName(p.size)) == Some(p.size);
    assert s[8..] == v + " " + ("btn-" + SizeName(p.size));
    SplitAtSpaceJoin(v, "btn-" + SizeName(p.size));
  }

  lemma ClassesInjective(p: Props, q: Props)
    requires ButtonClasses(p) == ButtonClasses(q)
    ensures p.variant == q.variant && p.size == q.size
  {
    ClassesRoundTrip(p);
    ClassesRoundTrip(q);
  }
}
