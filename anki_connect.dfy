/**
 * The AnkiConnect helpers of AnkiInterface.py: the clean-up applied to a
 * field's text before romaji conversion, the request object sent to
 * AnkiConnect, and the checks made on the object it answers with.
 *
 * JSON values are modelled by a datatype; numbers are integers.
 */
module AnkiConnect {
  import opened Wrappers

  /** `text.replace(target, replacement)` for a one-character `target`: every occurrence, left to right. */
  function ReplaceAll(s: string, target: char, replacement: string): (r: string)
    ensures target !in replacement ==> target !in r
    ensures target !in s ==> r == s
  {
    if s == [] then []
    else (if s[0] == target then replacement else [s[0]]) + ReplaceAll(s[1..], target, replacement)
  }

  /**
   * sanitizeTextForConversion: drop every hyphen, then turn every right
   * single quotation mark U+2019 into a space.
   */
  function Sanitize(fieldValue: string): string {
    ReplaceAll(ReplaceAll(fieldValue, '-', ""), '’', " ")
  }

  /** What the clean-up makes of one character on its own. */
  function SanitizeChar(c: char): (r: string)
    ensures |r| <= 1 && '-' !in r && '’' !in r
  {
    if c == '-' then "" else if c == '’' then " " else [c]
  }

  /** A character-by-character reference for the clean-up. */
  function SanitizeEach(s: string): string {
    if s == [] then [] else SanitizeChar(s[0]) + SanitizeEach(s[1..])
  }

  lemma {:induction false} ReplaceAllAppend(a: string, b: string, target: char, replacement: string)
    ensures ReplaceAll(a + b, target, replacement) == ReplaceAll(a, target, replacement) + ReplaceAll(b, target, replacement)
  {
    if a == [] {
      assert a + b == b;
    } else {
      assert (a + b)[1..] == a[1..] + b;
      ReplaceAllAppend(a[1..], b, target, replacement);
    }
  }

  /**
   * The two chained `replace` calls act character by character: each
   * hyphen is dropped, each U+2019 becomes one space, and every other
   * character is kept, in order.
   */
  lemma {:induction false} SanitizeIsCharwise(s: string)
    ensures Sanitize(s) == SanitizeEach(s)
  {
    if s != [] {
      SanitizeIsCharwise(s[1..]);
      var first := if s[0] == '-' then "" else [s[0]];
      assert ReplaceAll(s, '-', "") == first + ReplaceAll(s[1..], '-', "");
      ReplaceAllAppend(first, ReplaceAll(s[1..], '-', ""), '’', " ");
      if first != [] {
        assert first[1..] == [];
      }
      assert ReplaceAll(first, '’', " ") == SanitizeChar(s[0]);
    }
  }

  /** The clean-up distributes over concatenation. */
  lemma {:induction false} SanitizeAppend(a: string, b: string)
    ensures Sanitize(a + b) == Sanitize(a) + Sanitize(b)
  {
    ReplaceAllAppend(a, b, '-', "");
    ReplaceAllAppend(ReplaceAll(a, '-', ""), ReplaceAll(b, '-', ""), '’', " ");
  }

  /** No hyphen and no U+2019 survives the clean-up. */
  lemma {:induction false} SanitizeRemovesBoth(s: string)
    ensures '-' !in Sanitize(s) && '’' !in Sanitize(s)
  {
    SanitizeIsCharwise(s);
    SanitizeEachRemovesBoth(s);
  }

  lemma {:induction false} SanitizeEachRemovesBoth(s: string)
    ensures '-' !in SanitizeEach(s) && '’' !in SanitizeEach(s)
  {
    if s != [] {
      SanitizeEachRemovesBoth(s[1..]);
    }
  }

  /** The output is as long as the input less its hyphens. */
  function CountOf(s: string, c: char): nat {
    if s == [] then 0 else (if s[0] == c then 1 else 0) + CountOf(s[1..], c)
  }

  lemma {:induction false} SanitizeLength(s: string)
    ensures |Sanitize(s)| == |s| - CountOf(s, '-')
  {
    SanitizeIsCharwise(s);
    SanitizeEachLength(s);
  }

  lemma {:induction false} SanitizeEachLength(s: string)
    ensures |SanitizeEach(s)| == |s| - CountOf(s, '-')
  {
    if s != [] {
      SanitizeEachLength(s[1..]);
    }
  }

  /** Text with neither a hyphen nor U+2019 is left exactly as it is. */
  lemma {:induction false} SanitizeKeepsCleanText(s: string)
    requires '-' !in s && '’' !in s
    ensures Sanitize(s) == s
  {
    SanitizeIsCharwise(s);
    SanitizeEachKeeps(s);
  }

  lemma {:induction false} SanitizeEachKeeps(s: string)
    requires '-' !in s && '’' !in s
    ensures SanitizeEach(s) == s
  {
    if s != [] {
      assert s[0] in s;
      assert forall c :: c in s[1..] ==> c in s;
      SanitizeEachKeeps(s[1..]);
    }
  }

  /** Cleaning twice is cleaning once. */
  lemma SanitizeIdempotent(s: string)
    ensures Sanitize(Sanitize(s)) == Sanitize(s)
  {
    SanitizeRemovesBoth(s);
    SanitizeKeepsCleanText(Sanitize(s));
  }

  /** A JSON value as `json.dumps` and `json.load` see it. */
  datatype Json =
    | Null
    | Bool(b: bool)
    | Number(n: int)
    | Str(s: string)
    | Array(items: seq<Json>)
    | Object(members: map<string, Json>)

  /** The AnkiConnect protocol version the requests announce. */
  const ApiVersion: int := 6

  /**
   * formatAnkiConnectRequest: an object with exactly the members `action`,
   * `params` (the keyword arguments, as an object) and `version`, which
   * is 6.
   */
  function FormatRequest(action: string, params: map<string, Json>): (r: Json)
    ensures r.Object? && r.members.Keys == {"action", "params", "version"}
    ensures r.members["version"] == Number(6)
  {
    Object(map["action" := Str(action), "params" := Object(params), "version" := Number(ApiVersion)])
  }

  /** What a receiver reads back out of a request object: its action and its parameters. */
  function ReadRequest(request: Json): Option<(string, map<string, Json>)> {
    if request.Object? && "action" in request.members && "params" in request.members
       && request.members["action"].Str? && request.members["params"].Object?
    then Some((request.members["action"].s, request.members["params"].members))
    else None
  }

  /** A request carries its action and parameters unchanged. */
  lemma RequestRoundTrip(action: string, params: map<string, Json>)
    ensures ReadRequest(FormatRequest(action, params)) == Some((action, params))
  {
  }

  /** The exceptions invokeAnkiConnect raises on a response. */
  datatype AnkiError =
    | UnexpectedFieldCount(count: nat)
    | MissingErrorField
    | MissingResultField
      /** AnkiConnect reported an error: the exception carries it. */
    | Remote(error: Json)

  /**
   * The checks invokeAnkiConnect makes on the decoded response, in order:
   * exactly two members, an `error` member, a `result` member, and a null
   * error; then the result is the return value.
   */
  function CheckResponse(response: map<string, Json>): (r: Result<Json, AnkiError>)
    ensures r.Ok? <==> |response| == 2 && "error" in response && "result" in response && response["error"] == Null
    ensures r.Ok? ==> r.value == response["result"]
    ensures |response| != 2 ==> r == Err(UnexpectedFieldCount(|response|))
  {
    if |response| != 2 then Err(UnexpectedFieldCount(|response|))
    else if "error" !in response then Err(MissingErrorField)
    else if "result" !in response then Err(MissingResultField)
    else if response["error"] != Null then Err(Remote(response["error"]))
    else Ok(response["result"])
  }

  /** A two-member map holding both keys holds nothing else. */
  lemma TwoKeys<V>(m: map<string, V>, a: string, b: string)
    requires |m| == 2 && a in m && b in m && a != b
    ensures m.Keys == {a, b}
  {
    var rest := m.Keys - {a, b};
    assert m.Keys == {a, b} + rest;
    assert |{a, b}| == 2;
    assert |rest| == 0;
  }

  /**
   * The responses that pass are exactly `{"error": null, "result": v}`,
   * and they return v.
   */
  lemma AcceptedResponses(response: map<string, Json>, v: Json)
    ensures CheckResponse(response) == Ok(v) <==> response == map["error" := Null, "result" := v]
  {
    if CheckResponse(response) == Ok(v) {
      TwoKeys(response, "error", "result");
      assert response == map["error" := Null, "result" := v];
    }
    if response == map["error" := Null, "result" := v] {
      assert response.Keys == {"error", "result"};
      assert |response.Keys| == 2;
    }
  }

  /** A two-member response without `error` is rejected for that, whatever else it holds. */
  lemma MissingErrorRejected(response: map<string, Json>)
    requires |response| == 2 && "error" !in response
    ensures CheckResponse(response) == Err(MissingErrorField)
  {
  }

  /** A two-member response with `error` but without `result` is rejected for that. */
  lemma MissingResultRejected(response: map<string, Json>)
    requires |response| == 2 && "error" in response && "result" !in response
    ensures CheckResponse(response) == Err(MissingResultField)
  {
  }

  /** A well-shaped response with a non-null error raises that error. */
  lemma RemoteErrorRaised(e: Json, v: Json)
    requires e != Null
    ensures CheckResponse(map["error" := e, "result" := v]) == Err(Remote(e))
  {
    var m := map["error" := e, "result" := v];
    assert m.Keys == {"error", "result"};
    assert |m.Keys| == 2;
  }
}
