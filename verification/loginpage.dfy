/**
 What the service reads off the portal's login page: the CAPTCHA image source
 (main.py `find_captcha_info`), the login form's action (`find_login_action`)
 and the form's input fields folded into a name-to-value map (`login_finish`).
 */
module LoginPage {
  import opened Common
  import opened Strings
  import opened Dom
  import Dict

  /** An element matched by the selector list `img#captcha, img[src*='captcha'], img[id*='captcha']`. */
  predicate IsCaptchaImage(n: Node)
  {
    && n.tag == "img"
    && (|| Attr(n, "id") == Some("captcha")
        || (Attr(n, "src").Some? && Contains(Attr(n, "src").value, "captcha"))
        || (Attr(n, "id").Some? && Contains(Attr(n, "id").value, "captcha")))
  }

  /** Element `i` of `es` is the first CAPTCHA image. */
  ghost predicate FirstCaptchaAt(es: seq<Node>, i: int)
  {
    0 <= i < |es| && IsCaptchaImage(es[i]) && forall j :: 0 <= j < i ==> !IsCaptchaImage(es[j])
  }

  /**
   The CAPTCHA source: the `src` of the first matching image in document order,
   reported only when that `src` is non-empty. Later images are not consulted,
   even when the first match has no usable `src`.
   */
  function FindCaptchaSrc(doc: seq<Node>): (r: Option<string>)
    ensures var es := FlattenAll(doc);
      forall i :: FirstCaptchaAt(es, i) ==>
        r == if Truthy(Attr(es[i], "src")) then Some(es[i].attrs["src"]) else None
    ensures var es := FlattenAll(doc);
      (forall i :: 0 <= i < |es| ==> !IsCaptchaImage(es[i])) ==> r.None?
    ensures r.Some? ==> r.value != ""
  {
    var es := FlattenAll(doc);
    match FirstMatch(es, IsCaptchaImage)
    case None => None
    case Some(i) => if Truthy(Attr(es[i], "src")) then Some(es[i].attrs["src"]) else None
  }

  /** Content after the first CAPTCHA image never changes the detected source. */
  lemma CaptchaSrcIgnoresLaterContent(doc: seq<Node>, more: seq<Node>)
    requires exists i :: 0 <= i < |FlattenAll(doc)| && IsCaptchaImage(FlattenAll(doc)[i])
    ensures FindCaptchaSrc(doc + more) == FindCaptchaSrc(doc)
  {
    FlattenAllAppend(doc, more);
    FirstMatchAppend(FlattenAll(doc), FlattenAll(more), IsCaptchaImage);
  }

  /**
   The attribute tests are case-sensitive: an image whose id is `imgCaptcha`
   (capital C) and whose `src` does not mention "captcha" is not matched, so
   no CAPTCHA source is found on such a page.
   */
  lemma CamelCaseCaptchaIdNotMatched()
    ensures FindCaptchaSrc([Node("img", map["id" := "imgCaptcha", "src" := "/c.png"], "", [])]) == None
  {
    var img := Node("img", map["id" := "imgCaptcha", "src" := "/c.png"], "", []);
    assert FlattenAll([img]) == [img] by {
      assert [img][1..] == [];
    }
    forall i: nat
      ensures !OccursAt("captcha", "imgCaptcha", i)
    {
      if i + 7 <= 10 {
        assert "imgCaptcha"[i..i + 7][0] == "imgCaptcha"[i];
      }
    }
    ContainsIffOccurs("imgCaptcha", "captcha");
    assert !Contains("/c.png", "captcha");
    assert !IsCaptchaImage(img);
  }

  /** Element `i` of `es` is the first form. */
  ghost predicate FirstFormAt(es: seq<Node>, i: int)
  {
    0 <= i < |es| && es[i].tag == "form" && forall j :: 0 <= j < i ==> es[j].tag != "form"
  }

  /** The login form's action: the first form's non-empty `action` attribute, if any. */
  function FindLoginAction(doc: seq<Node>): (r: Option<string>)
    ensures var es := FlattenAll(doc);
      r.Some? <==> exists i :: FirstFormAt(es, i) && Truthy(Attr(es[i], "action"))
    ensures var es := FlattenAll(doc);
      forall i :: FirstFormAt(es, i) && Truthy(Attr(es[i], "action")) ==> r == Some(es[i].attrs["action"])
    ensures r.Some? ==> r.value != ""
  {
    match Find(doc, "form")
    case None => None
    case Some(form) => if Truthy(Attr(form, "action")) then Some(form.attrs["action"]) else None
  }

  /** Forms after the first one are never consulted for the action. */
  lemma LoginActionIgnoresLaterForms(doc: seq<Node>, more: seq<Node>)
    requires exists i :: 0 <= i < |FlattenAll(doc)| && FlattenAll(doc)[i].tag == "form"
    ensures FindLoginAction(doc + more) == FindLoginAction(doc)
  {
    FlattenAllAppend(doc, more);
    var p := (n: Node) => HasTag(n, "form");
    var i :| 0 <= i < |FlattenAll(doc)| && FlattenAll(doc)[i].tag == "form";
    assert p(FlattenAll(doc)[i]);
    FirstMatchAppend(FlattenAll(doc), FlattenAll(more), p);
  }

  /** An input contributes a field exactly when its `name` is present and non-empty. */
  predicate Named(n: Node)
  {
    Truthy(Attr(n, "name"))
  }

  /** `inp.get("value", "")`. */
  function FieldValue(n: Node): string
  {
    match Attr(n, "value")
    case None => ""
    case Some(v) => v
  }

  /** The (name, value) assignments the input loop performs, in order. */
  function InputPairs(inputs: seq<Node>): Dict.Pairs
  {
    if |inputs| == 0 then []
    else
      var last := inputs[|inputs| - 1];
      InputPairs(inputs[..|inputs| - 1])
        + (if Named(last) then [(last.attrs["name"], FieldValue(last))] else [])
  }

  /** The field map built from a sequence of inputs. */
  function FieldMap(inputs: seq<Node>): map<string, string>
  {
    Dict.FromPairs(InputPairs(inputs))
  }

  /** The inputs of the first form, in document order; none when the page has no form. */
  function FormInputs(doc: seq<Node>): seq<Node>
  {
    match Find(doc, "form")
    case None => []
    case Some(form) => FindAll(form.children, "input")
  }

  /** The form's default field values, as `login_finish` collects them. */
  function FormFields(doc: seq<Node>): map<string, string>
  {
    FieldMap(FormInputs(doc))
  }

  /** One more input either leaves the map alone or assigns its field. */
  lemma FieldMapSnoc(inputs: seq<Node>)
    requires |inputs| > 0
    ensures var last := inputs[|inputs| - 1];
      FieldMap(inputs) ==
        if Named(last) then FieldMap(inputs[..|inputs| - 1])[last.attrs["name"] := FieldValue(last)]
        else FieldMap(inputs[..|inputs| - 1])
  {
    var init := InputPairs(inputs[..|inputs| - 1]);
    var last := inputs[|inputs| - 1];
    if Named(last) {
      var ps := init + [(last.attrs["name"], FieldValue(last))];
      assert ps[..|ps| - 1] == init;
    } else {
      assert InputPairs(inputs) == init;
    }
  }

  /** The names of the named inputs. */
  function NamedSet(inputs: seq<Node>): set<string>
  {
    set i | 0 <= i < |inputs| && Named(inputs[i]) :: inputs[i].attrs["name"]
  }

  /** Every name of the shorter sequence is still a name after one more input. */
  lemma NamedSetGrows(inputs: seq<Node>)
    requires |inputs| > 0
    ensures NamedSet(inputs[..|inputs| - 1]) <= NamedSet(inputs)
  {
    var init := inputs[..|inputs| - 1];
    forall k | k in NamedSet(init)
      ensures k in NamedSet(inputs)
    {
      var i :| 0 <= i < |init| && Named(init[i]) && init[i].attrs["name"] == k;
      assert inputs[i] == init[i];
    }
  }

  /** A name after one more input is an earlier name or the new input's. */
  lemma NamedSetNew(inputs: seq<Node>)
    requires |inputs| > 0
    ensures var last := inputs[|inputs| - 1];
      NamedSet(inputs) <= NamedSet(inputs[..|inputs| - 1]) + (if Named(last) then {last.attrs["name"]} else {})
  {
    var init := inputs[..|inputs| - 1];
    forall k | k in NamedSet(inputs)
      ensures k in NamedSet(init) || k == inputs[|inputs| - 1].attrs["name"]
    {
      var i :| 0 <= i < |inputs| && Named(inputs[i]) && inputs[i].attrs["name"] == k;
      if i < |inputs| - 1 {
        assert init[i] == inputs[i];
      }
    }
  }

  /** The names after one more input: the earlier ones, plus the new input's if it is named. */
  lemma NamedSetSnoc(inputs: seq<Node>)
    requires |inputs| > 0
    ensures var last := inputs[|inputs| - 1];
      NamedSet(inputs) == NamedSet(inputs[..|inputs| - 1]) + (if Named(last) then {last.attrs["name"]} else {})
  {
    var last := inputs[|inputs| - 1];
    NamedSetGrows(inputs);
    NamedSetNew(inputs);
    if Named(last) {
      assert last.attrs["name"] in NamedSet(inputs);
    }
  }

  /** The field names: every named input, and nothing else. */
  lemma {:induction false} FieldMapKeys(inputs: seq<Node>)
    ensures FieldMap(inputs).Keys == NamedSet(inputs)
  {
    if |inputs| > 0 {
      FieldMapKeys(inputs[..|inputs| - 1]);
      FieldMapSnoc(inputs);
      NamedSetSnoc(inputs);
    }
  }

  /** Input `i` is the last named input carrying its name. */
  ghost predicate LastNamed(inputs: seq<Node>, i: int)
  {
    && 0 <= i < |inputs|
    && Named(inputs[i])
    && forall j :: i < j < |inputs| && Named(inputs[j]) ==> inputs[j].attrs["name"] != inputs[i].attrs["name"]
  }

  /** Each field holds the value of the last input with that name; a missing value reads as "". */
  lemma {:induction false} FieldMapLastWins(inputs: seq<Node>, i: int)
    requires LastNamed(inputs, i)
    ensures var name := inputs[i].attrs["name"];
      name in FieldMap(inputs) && FieldMap(inputs)[name] == FieldValue(inputs[i])
  {
    FieldMapSnoc(inputs);
    if i < |inputs| - 1 {
      var init := inputs[..|inputs| - 1];
      assert init[i] == inputs[i];
      assert LastNamed(init, i);
      FieldMapLastWins(init, i);
    }
  }
}
