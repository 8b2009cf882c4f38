// SafeInput: the readers that turn one token of text into a checked value or
// an InvalidProductData error. Each takes the text of the stream it reads.

module SafeInput {
  import opened Errors
  import opened Text

  /** What `std::getline(is, value)` leaves in `value`: the first line, or
      the empty string when nothing can be read. */
  function LineOf(s: string): (r: string)
    ensures '\n' !in r && IsPrefix(r, s)
    ensures |s| > 0 && s[0] != '\n' ==> |r| > 0
  {
    match FirstLine(s)
    case None => ""
    case Some(line) => line
  }

  function ReadNonEmptyString(s: string, field: string): (r: Result<string>)
    ensures r.Ok? <==> LineOf(s) != ""
    ensures r.Ok? ==> r.value == LineOf(s)
    ensures r.Fail? ==> r.error == InvalidProductData(field)
  {
    var value := LineOf(s);
    if value == "" then Fail(InvalidProductData(field)) else Ok(value)
  }

  /** `is >> value`, then a sign check. Despite its name, accepts zero:
      only a negative or unreadable number is refused. */
  function ReadPositiveDouble(s: string, field: string): (r: Result<real>)
    ensures r.Ok? <==> ExtractReal(s).Some? && ExtractReal(s).value.0 >= 0.0
    ensures r.Ok? ==> r.value == ExtractReal(s).value.0 && r.value >= 0.0
    ensures r.Fail? ==> r.error == InvalidProductData(field)
  {
    match ExtractReal(s)
    case None => Fail(InvalidProductData(field))
    case Some((v, _)) => if v < 0.0 then Fail(InvalidProductData(field)) else Ok(v)
  }

  function ReadPositiveInt(s: string, field: string): (r: Result<Int32>)
    ensures r.Ok? <==> ReadInt(s).Some? && ReadInt(s).value.0 > 0
    ensures r.Ok? ==> r.value == ReadInt(s).value.0 && r.value > 0
    ensures r.Fail? ==> r.error == InvalidProductData(field)
  {
    match ReadInt(s)
    case None => Fail(InvalidProductData(field))
    case Some((v, _)) => if v <= 0 then Fail(InvalidProductData(field)) else Ok(v)
  }

  /** "yes"/"true"/"1" and "no"/"false"/"0", in any letter case. */
  function ReadBoolean(s: string, field: string): (r: Result<bool>)
    ensures r == Ok(true) <==> ToLower(LineOf(s)) in {"yes", "true", "1"}
    ensures r == Ok(false) <==> ToLower(LineOf(s)) in {"no", "false", "0"}
    ensures r.Fail? ==> r.error == InvalidProductData(field)
  {
    var value := ToLower(LineOf(s));
    if value == "yes" || value == "true" || value == "1" then Ok(true)
    else if value == "no" || value == "false" || value == "0" then Ok(false)
    else Fail(InvalidProductData(field))
  }

  lemma {:induction false} LineOfLine(s: string)
    requires '\n' !in s
    ensures LineOf(s) == s
  {
    if |s| > 0 { FirstLineOfLine(s); }
  }

  /** What the serialisers write for a flag reads back as that flag. */
  lemma {:induction false} ReadBooleanYesNo(b: bool, field: string)
    ensures ReadBoolean(if b then "Yes" else "No", field) == Ok(b)
  {
    var t := if b then "Yes" else "No";
    LineOfLine(t);
    assert ToLower(t) == (if b then "yes" else "no");
  }

  /** Padding is not trimmed. */
  lemma {:induction false} ReadBooleanPadded(field: string)
    ensures ReadBoolean(" yes", field).Fail?
  {
    LineOfLine(" yes");
    assert ToLower(" yes")[0] == ' ';
  }

  predicate IsIdChar(c: char) { IsAlnum(c) || c == '-' }

  /** The product-id rule: at least three characters, each a letter, a
      digit or '-'. */
  predicate IsProductId(id: string) {
    |id| >= 3 && forall i :: 0 <= i < |id| ==> IsIdChar(id[i])
  }

  function ReadProductId(s: string): (r: Result<string>)
    ensures r.Ok? <==> IsProductId(LineOf(s))
    ensures r.Ok? ==> r.value == LineOf(s)
    ensures LineOf(s) == "" ==> r == Fail(InvalidProductData("Product ID"))
    ensures LineOf(s) != "" && r.Fail? ==> r == Fail(InvalidProductId(LineOf(s)))
  {
    var id :- ReadNonEmptyString(s, "Product ID");
    if |id| < 3 then Fail(InvalidProductId(id))
    else if exists i :: 0 <= i < |id| && !IsIdChar(id[i]) then Fail(InvalidProductId(id))
    else Ok(id)
  }
}
