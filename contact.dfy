/** The contact-form endpoint (api/contact.ts): the request method, the
    required fields and the e-mail address are checked in that order and
    the first failed check decides the response. Logging the submission is
    left out; it does not change the response. */
module Contact {
  import opened Wrappers
  import opened Text
  import opened FrontMatter

  /** A request: its method (`verb`) and its decoded JSON body, `None` when the
      request has no body. */
  datatype Request = Request(verb: string, body: Option<map<string, Value>>)

  datatype Payload =
    | Failure(error: string)
    | Success(message: string)

  datatype Response = Response(status: int, payload: Payload)

  const ThankYou := "Thank you for your message! We will get back to you soon."

  // ---------------------------------------------------------------------
  // E-mail pattern
  // ---------------------------------------------------------------------

  /** `String(v)`, the text `RegExp.prototype.test` matches a value as. */
  function AsText(v: Value): string {
    match v
    case Str(s) => s
    case Num(n) => if n < 0 then "-" + NatToString(-n) else NatToString(n)
    case Bool(b) => if b then "true" else "false"
    case StrList(items) => JoinWith(items, ",")
    case Undefined => "undefined"
  }

  /** A character `[^\s@]` matches. */
  predicate Plain(c: char) {
    !IsSpace(c) && c != '@'
  }

  predicate AllPlain(s: string) {
    forall k | 0 <= k < |s| :: Plain(s[k])
  }

  /** `^[^\s@]+@[^\s@]+\.[^\s@]+$` as the regular expression reads: three
      non-empty runs of plain characters, joined by "@" and by ".". */
  ghost predicate EmailPattern(s: string) {
    exists a: string, b: string, c: string ::
      a != "" && b != "" && c != "" && AllPlain(a) && AllPlain(b) && AllPlain(c)
      && s == a + "@" + b + "." + c
  }

  /** The check the handler performs, read as a scan: no white space,
      exactly one '@', something before it, and a '.' in the domain with a
      character on each side. */
  function EmailOk(s: string): (ok: bool) {
    (forall k | 0 <= k < |s| :: !IsSpace(s[k]))
    && match IndexOf(s, "@")
       case None => false
       case Some(i) => 0 < i && '@' !in s[i + 1..] && i + 4 <= |s| && '.' in s[i + 2..|s| - 1]
  }

  /** The scan accepts exactly the addresses the pattern matches. */
  lemma EmailOkIff(s: string)
    ensures EmailOk(s) <==> EmailPattern(s)
  {
    if EmailOk(s) {
      EmailOkMatches(s);
    }
    if EmailPattern(s) {
      var a: string, b: string, c: string :| a != "" && b != "" && c != "" && AllPlain(a) && AllPlain(b) && AllPlain(c)
        && s == a + "@" + b + "." + c;
      PatternScans(s, a, b, c);
    }
  }

  lemma EmailOkMatches(s: string)
    requires EmailOk(s)
    ensures EmailPattern(s)
  {
    var i := IndexOf(s, "@").value;
    FirstAt(s, i);
    forall k | i < k < |s| ensures s[k] != '@' {
      assert s[k] == s[i + 1..][k - i - 1];
    }
    var d := s[i + 2..|s| - 1];
    var m :| 0 <= m < |d| && d[m] == '.';
    PatternAt(s, i, i + 2 + m);
  }

  /** A space-free text whose only '@' is at `i` and which has a '.' at `j`,
      with something between and on either side, matches the pattern. */
  lemma PatternAt(s: string, i: nat, j: nat)
    requires 0 < i && i + 2 <= j < |s| - 1 && s[i] == '@' && s[j] == '.'
    requires forall k | 0 <= k < |s| :: !IsSpace(s[k]) && (k != i ==> s[k] != '@')
    ensures EmailPattern(s)
  {
    var a := s[..i];
    var b := s[i + 1..j];
    var c := s[j + 1..];
    assert AllPlain(a) && AllPlain(b) && AllPlain(c) by {
      forall k | 0 <= k < |a| ensures Plain(a[k]) { assert a[k] == s[k]; }
      forall k | 0 <= k < |b| ensures Plain(b[k]) { assert b[k] == s[i + 1 + k]; }
      forall k | 0 <= k < |c| ensures Plain(c[k]) { assert c[k] == s[j + 1 + k]; }
    }
    assert s == a + "@" + b + "." + c by {
      assert s == s[..i] + [s[i]] + s[i + 1..j] + [s[j]] + s[j + 1..];
    }
  }

  lemma PatternScans(s: string, a: string, b: string, c: string)
    requires a != "" && b != "" && c != "" && AllPlain(a) && AllPlain(b) && AllPlain(c)
    requires s == a + "@" + b + "." + c
    ensures EmailOk(s)
  {
    var i := |a|;
    var j := |a| + 1 + |b|;
    assert s[i] == '@' && s[j] == '.';
    assert forall k | 0 <= k < i :: s[k] == a[k];
    assert forall k | i < k < j :: s[k] == b[k - i - 1];
    assert forall k | j < k < |s| :: s[k] == c[k - j - 1];
    assert forall k | 0 <= k < |s| :: !IsSpace(s[k]);
    FirstAt(s, i);
    var rest := s[i + 1..];
    forall k | 0 <= k < |rest| ensures rest[k] != '@' {
      assert rest[k] == s[i + 1 + k];
    }
    assert s[i + 2..|s| - 1][j - i - 2] == '.';
  }

  /** The first '@' of a text is at `i` exactly when `s[i]` is one and no
      character before it is. */
  lemma FirstAt(s: string, i: nat)
    ensures IndexOf(s, "@") == Some(i) <==> i < |s| && s[i] == '@' && forall k | 0 <= k < i :: s[k] != '@'
  {
    forall k: nat ensures OccursAt(s, "@", k) <==> k < |s| && s[k] == '@' {
      if k < |s| {
        assert s[k..k + 1] == [s[k]];
      }
    }
  }

  /** Text the pattern accepts has one '@', so a number or a truth value
      never passes. */
  lemma NumbersNeverPass(v: Value)
    requires v.Num? || v.Bool?
    ensures !EmailOk(AsText(v))
  {
    var t := AsText(v);
    assert '@' !in t by {
      if v.Num? {
        var digits := NatToString(if v.n < 0 then -v.n else v.n);
        assert forall k | 0 <= k < |digits| :: digits[k] != '@';
        assert t == digits || t == "-" + digits;
        if t == "-" + digits {
          assert forall k | 1 <= k < |t| :: t[k] == digits[k - 1];
        }
      }
    }
    match IndexOf(t, "@")
    case None =>
    case Some(i) =>
      assert t[i..i + 1] == "@";
      assert t[i] in t;
  }

  // ---------------------------------------------------------------------
  // Handler
  // ---------------------------------------------------------------------

  /** `handler`. A request without a body makes the destructuring throw,
      which the handler catches and answers with 500. */
  function Handle(req: Request): (res: Response)
    ensures req.verb != "POST" ==> res == Response(405, Failure("Method not allowed"))
    ensures req.verb == "POST" && req.body.None? ==> res == Response(500, Failure("Failed to process submission"))
  {
    if req.verb != "POST" then Response(405, Failure("Method not allowed"))
    else match req.body
      case None => Response(500, Failure("Failed to process submission"))
      case Some(data) =>
        var name := Get(data, "name");
        var email := Get(data, "email");
        var message := Get(data, "message");
        if !Truthy(name) || !Truthy(email) || !Truthy(message) then Response(400, Failure("Missing required fields"))
        else if !EmailOk(AsText(email)) then Response(400, Failure("Invalid email format"))
        else Response(200, Success(ThankYou))
  }

  /** A submission is accepted, with the thank-you message, exactly when it
      is a POST with a body whose name, e-mail and message are non-empty and
      whose e-mail the pattern matches; the company is never looked at. */
  lemma AcceptedIff(req: Request)
    ensures Handle(req).status == 200 <==>
              req.verb == "POST" && req.body.Some?
              && Truthy(Get(req.body.value, "name")) && Truthy(Get(req.body.value, "email"))
              && Truthy(Get(req.body.value, "message"))
              && EmailPattern(AsText(Get(req.body.value, "email")))
    ensures Handle(req).status == 200 ==> Handle(req).payload == Success(ThankYou)
  {
    if req.body.Some? {
      EmailOkIff(AsText(Get(req.body.value, "email")));
    }
  }

  /** The checks run in order: a missing field is reported even when the
      e-mail is malformed, and a malformed e-mail only once every field is
      present. */
  lemma FirstFailureDecides(req: Request)
    requires req.verb == "POST" && req.body.Some?
    ensures var d := req.body.value;
            (!Truthy(Get(d, "name")) || !Truthy(Get(d, "email")) || !Truthy(Get(d, "message")))
            <==> Handle(req) == Response(400, Failure("Missing required fields"))
    ensures var d := req.body.value;
            (Truthy(Get(d, "name")) && Truthy(Get(d, "email")) && Truthy(Get(d, "message"))
             && !EmailPattern(AsText(Get(d, "email"))))
            <==> Handle(req) == Response(400, Failure("Invalid email format"))
  {
    EmailOkIff(AsText(Get(req.body.value, "email")));
  }

  /** Changing the company never changes the response. */
  lemma CompanyIgnored(verb: string, data: map<string, Value>, company: Value)
    ensures Handle(Request(verb, Some(data["company" := company]))) == Handle(Request(verb, Some(data)))
  {
    var d := data["company" := company];
    assert Get(d, "name") == Get(data, "name");
    assert Get(d, "email") == Get(data, "email");
    assert Get(d, "message") == Get(data, "message");
  }
}
