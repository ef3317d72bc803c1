/** The WPF value converters: null-to-visibility, string equality against a
    binding parameter, and the application-status colour. A bound `object`
    is modelled by its ToString() text, None standing for null. */
module Converters {
  import opened Wrappers
  import opened Text

  datatype Visibility = Visible | Collapsed

  /** NullToVisibilityConverter.Convert: hidden exactly when there is no value. */
  function NullToVisibility<T>(value: Option<T>): (r: Visibility)
    ensures r == Collapsed <==> value.None?
  {
    if value.None? then Collapsed else Visible
  }

  /** StringEqualsConverter.Convert: both null is true, exactly one null is
      false, otherwise the texts are compared exactly. */
  function StringEquals(value: Option<string>, parameter: Option<string>): (r: bool)
    ensures r <==> value == parameter
  {
    if value.None? && parameter.None? then true
    else if value.None? || parameter.None? then false
    else value.value == parameter.value
  }

  lemma StringEqualsSymmetric(value: Option<string>, parameter: Option<string>)
    ensures StringEquals(value, parameter) == StringEquals(parameter, value)
  {
  }

  /** StringEqualsConverter.ConvertBack: the parameter when checked, null otherwise. */
  function StringEqualsBack(value: bool, parameter: Option<string>): (r: Option<string>)
    ensures value ==> r == parameter
    ensures !value ==> r.None?
  {
    if value then parameter else None
  }

  /** Converting back and forth again gives the checked state back, for a
      radio button bound with a (non-null) parameter. */
  lemma StringEqualsRoundTrip(checked: bool, parameter: Option<string>)
    requires parameter.Some?
    ensures StringEquals(StringEqualsBack(checked, parameter), parameter) == checked
  {
  }

  /** A solid colour by its red, green and blue bytes. */
  datatype Color = Rgb(red: int, green: int, blue: int)

  predicate IsByteColor(c: Color)
  {
    0 <= c.red < 256 && 0 <= c.green < 256 && 0 <= c.blue < 256
  }

  /** System.Windows.Media.Colors.Gray. */
  const Gray := Rgb(128, 128, 128)

  /** The statuses the colour switch recognises, lower-cased. */
  const KnownStatuses: set<string> :=
    {"applied", "screening", "interview", "technicaltest", "technical test", "offer", "rejected", "withdrawn"}

  /** The switch on the lower-cased status. */
  function ColorOfLower(status: string): (r: Color)
    ensures IsByteColor(r)
    ensures r == Gray <==> status !in KnownStatuses
  {
    if status == "applied" then Rgb(33, 150, 243)
    else if status == "screening" then Rgb(156, 39, 176)
    else if status == "interview" then Rgb(255, 152, 0)
    else if status == "technicaltest" || status == "technical test" then Rgb(0, 188, 212)
    else if status == "offer" then Rgb(76, 175, 80)
    else if status == "rejected" then Rgb(244, 67, 54)
    else if status == "withdrawn" then Rgb(158, 158, 158)
    else Gray
  }

  /** StatusToBrushConverter.Convert: Gray for null, otherwise the colour of
      the lower-cased status, Gray when it is not one the switch knows. */
  function StatusToBrush(value: Option<string>): (r: Color)
    ensures IsByteColor(r)
    ensures r == Gray <==> value.None? || LowerStr(value.value) !in KnownStatuses
  {
    match value
    case None => Gray
    case Some(s) => ColorOfLower(LowerStr(s))
  }

  /** The status is matched without regard to case. */
  lemma StatusToBrushIgnoresCase(a: string, b: string)
    requires EqualsIgnoreCase(a, b)
    ensures StatusToBrush(Some(a)) == StatusToBrush(Some(b))
  {
  }

  lemma StatusToBrushOfLower(s: string)
    ensures StatusToBrush(Some(LowerStr(s))) == StatusToBrush(Some(s))
  {
    LowerStrIdempotent(s);
  }

  /** Both spellings of the technical-test status share one colour, and no
      two other known statuses do. */
  lemma StatusColorsDistinct(a: string, b: string)
    requires a in KnownStatuses && b in KnownStatuses && a != b
    ensures ColorOfLower(a) == ColorOfLower(b) <==>
              {a, b} == {"technicaltest", "technical test"}
  {
  }
}
