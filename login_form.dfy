/**
 * FetcherDefault.getFormParams: the login-form body. The username field is
 * the `name` of the first element whose `type` is "text", the password field
 * the `name` of the first whose `type` is "password", and the body is
 * `userField=enc(username)&passField=enc(password)`.
 */
module LoginForm {
  import opened Wrappers
  import opened Bytes
  import FormEncoding
  import opened Sequences

  /** An element of the parsed login page, reduced to its attributes. */
  datatype Element = Element(attributes: map<string, string>)

  /** Element.attr: the attribute's value, or "" when it is absent. */
  function Attr(e: Element, key: string): string {
    if key in e.attributes then e.attributes[key] else ""
  }

  predicate HasType(e: Element, t: string) {
    "type" in e.attributes && e.attributes["type"] == t
  }

  /**
   * `doc.getElementsByAttributeValue("type", t).first()`: the position of
   * the first element in document order whose `type` is `t`, at or after `from`.
   */
  function FirstOfType(doc: seq<Element>, t: string, from: nat): (r: Option<nat>)
    requires from <= |doc|
    ensures r.Some? ==> from <= r.value < |doc| && HasType(doc[r.value], t)
    ensures r.Some? ==> forall j :: from <= j < r.value ==> !HasType(doc[j], t)
    ensures r.None? ==> forall j :: from <= j < |doc| ==> !HasType(doc[j], t)
    decreases |doc| - from
  {
    if from == |doc| then None
    else if HasType(doc[from], t) then Some(from)
    else FirstOfType(doc, t, from + 1)
  }

  /** `.first()` returns null when no element matches, and `.attr(...)` on it throws. */
  datatype FormError = NoTextInput | NoPasswordInput

  /** One `field=enc(value)` parameter: the field name as it is, the value encoded. */
  function Param(field: string, value: string): string {
    field + "=" + FormEncoding.Encode(value)
  }

  /** The login body for the two detected fields and the credentials: the two parameters joined. */
  function FormBody(userField: string, username: string, passField: string, password: string): (r: string)
    ensures r == Join([Param(userField, username), Param(passField, password)])
  {
    Param(userField, username) + "&" + Param(passField, password)
  }

  /**
   * The parameters joined by `&`. When no parameter holds a `&`, cutting
   * the result at every `&` gives the parameters back.
   */
  function Join(params: seq<string>): (r: string)
    ensures |params| > 0 && (forall i :: 0 <= i < |params| ==> '&' !in params[i]) ==> Split(r, '&') == params
    decreases |params|
  {
    if |params| == 0 then ""
    else if |params| == 1 then
      SplitWithoutSep(params[0], '&');
      params[0]
    else
      var init := Join(params[..|params| - 1]);
      var last := params[|params| - 1];
      JoinStep(params, init);
      init + "&" + last
  }

  /** The step of `Join`: one more `&`-free parameter after an `&`-free join splits off as one more piece. */
  lemma JoinStep(params: seq<string>, init: string)
    requires |params| >= 2
    requires (forall i :: 0 <= i < |params| - 1 ==> '&' !in params[i]) ==> Split(init, '&') == params[..|params| - 1]
    ensures (forall i :: 0 <= i < |params| ==> '&' !in params[i]) ==>
              Split(init + "&" + params[|params| - 1], '&') == params
  {
    var last := params[|params| - 1];
    SplitConcat(init, '&', last);
    assert init + "&" + last == init + ['&'] + last;
    if forall i :: 0 <= i < |params| ==> '&' !in params[i] {
      SplitWithoutSep(last, '&');
      assert params[..|params| - 1] + [last] == params;
    }
  }

  /**
   * getFormParams over the parsed page: the form body when both a text and a
   * password element exist, and otherwise the error for the lookup that
   * fails first (the text input is looked up first).
   */
  method GetFormParams(doc: seq<Element>, username: string, password: string)
    returns (r: Result<string, FormError>)
    ensures FirstOfType(doc, "text", 0).None? ==> r == Failure(NoTextInput)
    ensures FirstOfType(doc, "text", 0).Some? && FirstOfType(doc, "password", 0).None? ==>
              r == Failure(NoPasswordInput)
    ensures FirstOfType(doc, "text", 0).Some? && FirstOfType(doc, "password", 0).Some? ==>
              r == Success(FormBody(Attr(doc[FirstOfType(doc, "text", 0).value], "name"), username,
                                    Attr(doc[FirstOfType(doc, "password", 0).value], "name"), password))
  {
    var usernameInput := FirstOfType(doc, "text", 0);
    if usernameInput.None? {
      return Failure(NoTextInput);
    }
    var usernameInputField := Attr(doc[usernameInput.value], "name");
    var passwordInput := FirstOfType(doc, "password", 0);
    if passwordInput.None? {
      return Failure(NoPasswordInput);
    }
    var passwordInputField := Attr(doc[passwordInput.value], "name");
    var paramList := [Param(usernameInputField, username), Param(passwordInputField, password)];
    var result := "";
    for i := 0 to |paramList|
      invariant result == Join(paramList[..i])
      invariant i > 0 ==> |result| > 0
    {
      assert paramList[..i + 1][..i] == paramList[..i];
      if |result| == 0 {
        result := paramList[i];
      } else {
        result := result + "&" + paramList[i];
      }
    }
    assert paramList[..2] == paramList;
    return Success(result);
  }

  // ---------------------------------------------------------------------
  // Reading the body back
  // ---------------------------------------------------------------------

  /** `s` cut at every `sep`, keeping empty pieces. */
  function Split(s: string, sep: char): (r: seq<string>)
    ensures |r| >= 1
  {
    if |s| == 0 then [""]
    else
      var rest := Split(s[1..], sep);
      if s[0] == sep then [""] + rest else [[s[0]] + rest[0]] + rest[1..]
  }

  /** Cutting at a separator between two strings cuts each of them separately. */
  lemma {:induction false} SplitConcat(a: string, sep: char, b: string)
    ensures Split(a + [sep] + b, sep) == Split(a, sep) + Split(b, sep)
  {
    if |a| == 0 {
      assert a + [sep] + b == [sep] + b;
      assert ([sep] + b)[1..] == b;
    } else {
      SplitConcat(a[1..], sep, b);
      SplitConcatCons(a, sep, b);
    }
  }

  /** The step of `SplitConcat`: putting one more char in front. */
  lemma SplitConcatCons(a: string, sep: char, b: string)
    requires |a| > 0
    requires Split(a[1..] + [sep] + b, sep) == Split(a[1..], sep) + Split(b, sep)
    ensures Split(a + [sep] + b, sep) == Split(a, sep) + Split(b, sep)
  {
    var t := a + [sep] + b;
    assert t[0] == a[0] && t[1..] == a[1..] + [sep] + b;
    var ra := Split(a[1..], sep);
    SplitCons(t, sep, ra, Split(b, sep));
    assert ra + [] == ra;
    SplitCons(a, sep, ra, []);
  }

  /**
   * Cutting `s` when the cut of its tail is `ra + rb`: a leading separator
   * starts a new piece, any other char joins the first piece of `ra`.
   */
  lemma SplitCons(s: string, sep: char, ra: seq<string>, rb: seq<string>)
    requires |s| > 0 && |ra| >= 1
    requires Split(s[1..], sep) == ra + rb
    ensures Split(s, sep) == (if s[0] == sep then [""] + ra else [[s[0]] + ra[0]] + ra[1..]) + rb
  {
  }

  /** A string without the separator is one piece. */
  lemma {:induction false} SplitWithoutSep(s: string, sep: char)
    ensures sep !in s ==> Split(s, sep) == [s]
  {
    if |s| > 0 && sep !in s {
      SplitWithoutSep(s[1..], sep);
      assert [s[0]] + s[1..] == s;
    }
  }

  /** A separator after a piece without one splits off that piece. */
  lemma {:induction false} SplitAfter(a: string, sep: char, b: string)
    requires sep !in a
    ensures Split(a + [sep] + b, sep) == [a] + Split(b, sep)
  {
    if |a| == 0 {
      assert a + [sep] + b == [sep] + b;
      assert ([sep] + b)[1..] == b;
    } else {
      SplitAfter(a[1..], sep, b);
      assert (a + [sep] + b)[1..] == a[1..] + [sep] + b;
      assert [a[0]] + a[1..] == a;
    }
  }

  /** A parameter cut at its first `=` into name and still-encoded value. */
  function SplitParam(p: string): (string, string) {
    if '=' in p then
      var k := FirstIndex(p, '=');
      (p[..k], p[k + 1..])
    else (p, "")
  }

  /**
   * The (field, value) byte pairs a server reads from a form body: each
   * parameter is cut at its first `=` and both halves are form-decoded.
   * Unlike the parser of section 5.1 of the WHATWG URL Standard, an empty
   * piece between two `&` is kept, as the pair ("", "").
   */
  function ParseForm(body: string): seq<(seq<byte>, seq<byte>)> {
    var parts := Split(body, '&');
    seq(|parts|, i requires 0 <= i < |parts| =>
      var (field, value) := SplitParam(parts[i]);
      (FormEncoding.Decode(field), FormEncoding.Decode(value)))
  }

  /**
   * A parameter whose field name holds no `=` is cut right after the name,
   * giving back the name and the encoded value; the parameter holds a `&`
   * only when its field name does.
   */
  lemma ParamSplit(field: string, value: string)
    requires '=' !in field
    ensures SplitParam(Param(field, value)) == (field, FormEncoding.Encode(value))
    ensures '&' in Param(field, value) <==> '&' in field
  {
    var p := Param(field, value);
    EncodedHasNoDelimiters(value);
    assert p[|field|] == '=';
    assert p[..|field|] == field && p[|field| + 1..] == FormEncoding.Encode(value);
  }

  /** An encoded value holds neither `&` nor `=`. */
  lemma EncodedHasNoDelimiters(s: string)
    ensures '&' !in FormEncoding.Encode(s) && '=' !in FormEncoding.Encode(s)
  {
  }

  /** A field name the decoder reads back as itself: no delimiter, no `+`, no `%`. */
  predicate PlainName(field: string) {
    '&' !in field && '=' !in field && '+' !in field && '%' !in field
  }

  /**
   * Round trip: when neither field name holds `&`, `=`, `+` or `%`, a server
   * parsing the body gets back the UTF-8 bytes of both field names and of
   * both credentials, in that order.
   */
  lemma FormBodyRoundTrip(userField: string, username: string, passField: string, password: string)
    requires PlainName(userField) && PlainName(passField)
    ensures ParseForm(FormBody(userField, username, passField, password))
         == [(FormEncoding.Utf8(userField), FormEncoding.Utf8(username)),
             (FormEncoding.Utf8(passField), FormEncoding.Utf8(password))]
  {
    var a := Param(userField, username);
    var b := Param(passField, password);
    EncodedHasNoDelimiters(username);
    EncodedHasNoDelimiters(password);
    assert '&' !in a && '&' !in b;
    SplitAfter(a, '&', b);
    SplitWithoutSep(b, '&');
    assert FormBody(userField, username, passField, password) == a + ['&'] + b;
    ParamSplit(userField, username);
    ParamSplit(passField, password);
    FormEncoding.DecodePlain(userField);
    FormEncoding.DecodePlain(passField);
    FormEncoding.DecodeEncode(username);
    FormEncoding.DecodeEncode(password);
  }

  /**
   * The field names go into the body unencoded, so a page whose text field
   * is named `a+b` yields a body that a server reads under the name `a b`.
   */
  lemma PlusInFieldNameMisread()
    ensures ParseForm(FormBody("a+b", "x", "pass", "y"))[0].0 == [97, 32, 98]
    ensures ParseForm(FormBody("a+b", "x", "pass", "y"))[0].0 != FormEncoding.Utf8("a+b")
  {
    FirstFieldDecoded("a+b", "x", "pass", "y");
    DecodePlusName();
    assert FormEncoding.Utf8Char('+') == [43] && FormEncoding.Utf8Char('a') == [97];
    assert FormEncoding.Utf8("a+b")[1] == 43;
  }

  /**
   * Whatever the field name holds besides `&` and `=`, the server reads the
   * first field as the form-decoding of the raw name, since the name itself
   * is never encoded.
   */
  lemma FirstFieldDecoded(userField: string, username: string, passField: string, password: string)
    requires '&' !in userField && '=' !in userField
    ensures ParseForm(FormBody(userField, username, passField, password))[0].0 == FormEncoding.Decode(userField)
  {
    var a := Param(userField, username);
    var b := Param(passField, password);
    EncodedHasNoDelimiters(username);
    assert '&' !in a;
    SplitAfter(a, '&', b);
    assert FormBody(userField, username, passField, password) == a + ['&'] + b;
    ParamSplit(userField, username);
  }

  /** `a+b` decodes to the bytes of `a b`. */
  lemma DecodePlusName()
    ensures FormEncoding.Decode("a+b") == [97, 32, 98]
  {
  }

  /** A page with a text input `user` and a password input `pass`. */
  function ExamplePage(): seq<Element> {
    [Element(map["type" := "text", "name" := "user"]),
     Element(map["type" := "password", "name" := "pass"])]
  }

  /** On that page the text field is `user` and the password field `pass`. */
  lemma ExamplePageFields()
    ensures FirstOfType(ExamplePage(), "text", 0) == Some(0)
    ensures FirstOfType(ExamplePage(), "password", 0) == Some(1)
    ensures Attr(ExamplePage()[0], "name") == "user" && Attr(ExamplePage()[1], "name") == "pass"
  {
  }

  /** `!` is U+0021, a single UTF-8 byte written as `%21`. */
  lemma ExampleEscape()
    ensures FormEncoding.Encode("!") == "%21"
  {
    assert FormEncoding.Utf8Char('!') == [0x21];
  }

  /** `s3cr3t!` encodes to `s3cr3t%21`: only the `!` needs escaping. */
  lemma ExampleEncoding()
    ensures FormEncoding.Encode("s3cr3t!") == "s3cr3t%21"
  {
    FormEncoding.EncodeUnreserved("s3cr3t");
    ExampleEscape();
    FormEncoding.EncodeConcat("s3cr3t", "!");
    assert "s3cr3t" + "!" == "s3cr3t!";
  }

  /** Credentials alice / s3cr3t! in fields user / pass give `user=alice&pass=s3cr3t%21`. */
  lemma ExampleLoginBody()
    ensures FormBody("user", "alice", "pass", "s3cr3t!") == "user=alice" + "&" + "pass=s3cr3t%21"
  {
    assert Param("user", "alice") == "user=alice" by {
      FormEncoding.EncodeUnreserved("alice");
    }
    assert Param("pass", "s3cr3t!") == "pass=s3cr3t%21" by {
      ExampleEncoding();
    }
    FormBodyOfParams("user", "alice", "pass", "s3cr3t!", "user=alice", "pass=s3cr3t%21");
  }

  /** The body is the two parameters with a `&` between them. */
  lemma FormBodyOfParams(userField: string, username: string, passField: string, password: string,
                         userParam: string, passParam: string)
    requires Param(userField, username) == userParam && Param(passField, password) == passParam
    ensures FormBody(userField, username, passField, password) == userParam + "&" + passParam
  {
  }
}
