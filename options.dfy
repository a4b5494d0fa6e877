/**
 * Page options and decorator values (moffie/splitter.py): `PageOption`, the values that
 * `parse_value` produces, Python truthiness of those values, and `parse_value` itself.
 */
module Options {
  import opened Text

  /**
   * What `parse_value` can return, and so what `setattr` can store into a `PageOption`:
   * a bool, an int, a float (kept as its decimal text) or the string itself.
   */
  datatype Value = Bool(b: bool) | Int(i: int) | Num(text: string) | Str(s: string)

  /** Python truthiness of a value: `if value:`. A float is true unless all its digits are 0. */
  predicate Truthy(v: Value) {
    match v
    case Bool(b) => b
    case Int(i) => i != 0
    case Num(text) => exists k :: 0 <= k < |text| && IsDigit(text[k]) && text[k] != '0'
    case Str(s) => s != ""
  }

  /** `PageOption`: whether headings h1..h3 are inherited, and the layout name. */
  datatype PageOption = PageOption(defaultH1: Value, defaultH2: Value, defaultH3: Value, layout: Value)

  /** The dataclass defaults: h1 not inherited, h2 and h3 inherited, layout "top-down". */
  const DefaultOption: PageOption := PageOption(Bool(false), Bool(true), Bool(true), Str("top-down"))

  /**
   * The field names of a `PageOption`, the attributes `hasattr` finds that the model knows.
   * The attributes every Python object also has (`__doc__`, `__class__`, ...) are not among them.
   */
  const KnownFields: set<string> := {"default_h1", "default_h2", "default_h3", "layout"}

  /** `setattr(option, name, v)` for a known field name. */
  function SetField(o: PageOption, name: string, v: Value): (r: PageOption)
    requires name in KnownFields
    ensures r.defaultH1 == (if name == "default_h1" then v else o.defaultH1)
    ensures r.defaultH2 == (if name == "default_h2" then v else o.defaultH2)
    ensures r.defaultH3 == (if name == "default_h3" then v else o.defaultH3)
    ensures r.layout == (if name == "layout" then v else o.layout)
  {
    if name == "default_h1" then o.(defaultH1 := v)
    else if name == "default_h2" then o.(defaultH2 := v)
    else if name == "default_h3" then o.(defaultH3 := v)
    else o.(layout := v)
  }

  /** Every character that is not a dot is a digit (the empty string included). */
  predicate DigitsAndDots(s: string) {
    forall k :: 0 <= k < |s| && s[k] != '.' ==> IsDigit(s[k])
  }

  /**
   * `parse_value`: "true"/"false" in any case become bools; then a digit string becomes an
   * int; then a string that is digits once its first dot is removed becomes a float;
   * anything else is returned unchanged.
   */
  function ParseValue(value: string): (v: Value)
    ensures v.Bool? <==> Lower(value) == "true" || Lower(value) == "false"
    ensures v.Bool? ==> (v.b <==> Lower(value) == "true")
    ensures v.Int? <==> !v.Bool? && IsDigits(value)
    ensures v.Int? ==> v.i == DigitsValue(value)
    ensures v.Num? ==> v.text == value && Count(value, '.') == 1 && DigitsAndDots(value) && |value| >= 2
    ensures v.Str? ==> v.s == value
  {
    if Lower(value) == "true" then Bool(true)
    else if Lower(value) == "false" then Bool(false)
    else if IsDigits(value) then Int(DigitsValue(value))
    else if IsDigits(RemoveFirst(value, '.')) then
      DotRemoved(value);
      Num(value)
    else Str(value)
  }

  /** What removing the first dot leaves: one character fewer when there is a dot. */
  lemma {:induction false} DotRemoved(s: string)
    ensures |RemoveFirst(s, '.')| == if Count(s, '.') > 0 then |s| - 1 else |s|
    ensures Count(RemoveFirst(s, '.'), '.') == if Count(s, '.') > 0 then Count(s, '.') - 1 else 0
    ensures DigitsAndDots(RemoveFirst(s, '.')) <==> DigitsAndDots(s)
    ensures IsDigits(RemoveFirst(s, '.')) ==> Count(s, '.') <= 1
    ensures IsDigits(RemoveFirst(s, '.')) && !IsDigits(s) ==> Count(s, '.') == 1 && DigitsAndDots(s) && |s| >= 2
    decreases |s|
  {
    if s != [] {
      DotRemoved(s[1..]);
      var r := RemoveFirst(s, '.');
      if s[0] == '.' {
        assert r == s[1..];
        NoDotCount(s[1..]);
        if DigitsAndDots(s[1..]) {
          assert forall k :: 0 < k < |s| && s[k] != '.' ==> s[k] == s[1..][k - 1];
        }
        if DigitsAndDots(s) {
          assert forall k :: 0 <= k < |s[1..]| && s[1..][k] != '.' ==> s[1..][k] == s[k + 1];
        }
      } else {
        var t := RemoveFirst(s[1..], '.');
        assert r == [s[0]] + t;
        assert r[1..] == t;
        if DigitsAndDots(t) && DigitsAndDots(r) {
          assert forall k :: 0 < k < |s| && s[k] != '.' ==> s[k] == s[1..][k - 1];
        }
        if DigitsAndDots(s) {
          assert forall k :: 0 <= k < |s[1..]| && s[1..][k] != '.' ==> s[1..][k] == s[k + 1];
          assert forall k :: 0 < k < |r| && r[k] != '.' ==> r[k] == t[k - 1];
        }
        if IsDigits(r) {
          assert forall k :: 0 <= k < |t| ==> t[k] == r[k + 1];
          if Count(s[1..], '.') > 1 {
            NoDotCount(t);
          }
        }
      }
    }
  }

  /** A string of digits holds no dot. */
  lemma {:induction false} NoDotCount(s: string)
    ensures (forall k :: 0 <= k < |s| ==> s[k] != '.') <==> Count(s, '.') == 0
    decreases |s|
  {
    if s != [] {
      NoDotCount(s[1..]);
      assert forall k :: 0 < k < |s| ==> s[k] == s[1..][k - 1];
    }
  }

  /**
   * The float branch accepts exactly the strings made of digits and one dot with at least one
   * digit: "3.14", ".5" and "5." are floats, "." and "1.2.3" are not.
   */
  lemma ParseValueNum(value: string)
    ensures ParseValue(value).Num? <==>
      Count(value, '.') == 1 && DigitsAndDots(value) && |value| >= 2
  {
    DotRemoved(value);
    if Count(value, '.') == 1 && DigitsAndDots(value) && |value| >= 2 {
      NoDotCount(value);
      var r := RemoveFirst(value, '.');
      NoDotCount(r);
      assert IsDigits(r);
      assert !IsDigits(value);
    }
  }

  /** A digit string reads as 0 exactly when every digit is 0. */
  lemma {:induction false} DigitsValueZero(s: string)
    requires forall k :: 0 <= k < |s| ==> IsDigit(s[k])
    ensures DigitsValue(s) == 0 <==> forall k :: 0 <= k < |s| ==> s[k] == '0'
    decreases |s|
  {
    if s != [] {
      var p := s[..|s| - 1];
      assert forall k :: 0 <= k < |p| ==> p[k] == s[k];
      DigitsValueZero(p);
    }
  }

  /** An int parsed from digits is truthy exactly when some digit is not 0, as a float would be. */
  lemma IntTruthyLikeNum(value: string)
    requires IsDigits(value)
    ensures Truthy(ParseValue(value)) <==> exists k :: 0 <= k < |value| && value[k] != '0'
  {
    DigitsValueZero(value);
  }

  /** The value coercions listed for decorator values: booleans in any case, digits, and other text. */
  lemma ParseValueTrue()
    ensures ParseValue("true") == Bool(true)
  {
  }

  lemma ParseValueFalse()
    ensures ParseValue("False") == Bool(false)
  {
    assert Lower("False") == "false";
  }

  lemma ParseValueInt()
    ensures ParseValue("42") == Int(42)
  {
    assert Lower("42") != "true" && Lower("42") != "false" by { assert Lower("42")[0] == '4'; }
    assert IsDigits("42");
    assert "42"[..1] == "4" && "4"[..0] == "";
  }

  lemma ParseValueText()
    ensures ParseValue("top-down") == Str("top-down")
  {
    assert |Lower("top-down")| == 8;
    assert !IsDigit("top-down"[0]);
    assert RemoveFirst("top-down", '.')[0] == 't';
  }

  lemma ParseValueFloat()
    ensures ParseValue("3.14") == Num("3.14")
  {
    assert RemoveFirst("3.14", '.') == "314";
    assert !IsDigits("3.14") by { assert !IsDigit("3.14"[1]); }
  }

  lemma ParseValueTwoDots()
    ensures ParseValue("1.2.3") == Str("1.2.3")
  {
    assert RemoveFirst("1.2.3", '.') == "12.3";
    assert !IsDigits("1.2.3") by { assert !IsDigit("1.2.3"[1]); }
    assert !IsDigits("12.3") by { assert !IsDigit("12.3"[2]); }
  }
}
