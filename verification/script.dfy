/**
 The helpers of the interactive login script (Login.py): the semester code
 for a month, the cookie jar folded into a dictionary, and the landing-URL
 test that decides the message printed after submitting the form.
 */
module Script {
  import Dict

  /** The page the portal lands on after a successful login. */
  const HOME_URL := "https://vtop.vit.ac.in/student/home.asp"

  /**
   `calsem` with the current month passed in: "FS" (fall semester) for July
   to December, "WS" (winter semester) for every other value.
   */
  function CalSem(month: int): (sem: string)
    ensures sem == "FS" || sem == "WS"
    ensures sem == "FS" <==> 7 <= month <= 12
  {
    if month > 6 && month < 13 then "FS" else "WS"
  }

  /** The calendar months split into January-June (winter) and July-December (fall). */
  lemma CalSemCalendar()
    ensures forall m :: 1 <= m <= 6 ==> CalSem(m) == "WS"
    ensures forall m :: 7 <= m <= 12 ==> CalSem(m) == "FS"
  {
  }

  datatype Cookie = Cookie(name: string, value: string)

  /** The jar as (name, value) pairs, in iteration order. */
  function CookiePairs(jar: seq<Cookie>): (ps: Dict.Pairs)
    ensures |ps| == |jar|
    ensures forall i :: 0 <= i < |jar| ==> ps[i] == (jar[i].name, jar[i].value)
  {
    seq(|jar|, i requires 0 <= i < |jar| => (jar[i].name, jar[i].value))
  }

  /**
   The loop `for c in cookies: cookie_dict[c.name] = c.value`: the keys are
   exactly the cookie names, and each name holds the value of the last cookie
   carrying it.
   */
  method CookieDict(jar: seq<Cookie>) returns (d: map<string, string>)
    ensures d == Dict.FromPairs(CookiePairs(jar))
    ensures d.Keys == set i | 0 <= i < |jar| :: jar[i].name
    ensures forall i :: 0 <= i < |jar| && (forall j :: i < j < |jar| ==> jar[j].name != jar[i].name) ==>
      d[jar[i].name] == jar[i].value
  {
    d := map[];
    for k := 0 to |jar|
      invariant d == Dict.FromPairs(CookiePairs(jar[..k]))
    {
      assert CookiePairs(jar[..k + 1])[..k] == CookiePairs(jar[..k]);
      d := d[jar[k].name := jar[k].value];
    }
    assert jar[..|jar|] == jar;
    var ps := CookiePairs(jar);
    Dict.FromPairsKeys(ps);
    assert Dict.Names(ps) == set i | 0 <= i < |jar| :: jar[i].name by {
      forall n | n in Dict.Names(ps) ensures n in set i | 0 <= i < |jar| :: jar[i].name {
        var i :| 0 <= i < |ps| && ps[i].0 == n;
        assert jar[i].name == n;
      }
    }
    forall i | 0 <= i < |jar| && (forall j :: i < j < |jar| ==> jar[j].name != jar[i].name)
      ensures d[jar[i].name] == jar[i].value
    {
      assert Dict.LastFor(ps, i);
      Dict.FromPairsLast(ps, i);
    }
  }

  /** The message the script prints: success exactly when the landing URL is the home page. */
  function LoginReport(landingUrl: string): (msg: string)
    ensures msg == "Successfully Logged In" <==> landingUrl == HOME_URL
    ensures msg == "Successfully Logged In" || msg == "Recheck Credentials"
  {
    if landingUrl == HOME_URL then "Successfully Logged In" else "Recheck Credentials"
  }
}
