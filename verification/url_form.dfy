/**
 * The add-game form's submit handler: reject an empty input, input the URL parser
 * rejects, and a protocol not starting with "http"; otherwise clear the error and
 * hand the unmodified input to the page.
 */
module UrlForm {
  import opened Wrappers

  /** The parts of a successfully parsed `new URL(s)` that the app reads. */
  datatype ParsedUrl = ParsedUrl(protocol: string, hostname: string)

  /** The browser's URL parser: `None` when the constructor throws. */
  type UrlParser = string -> Option<ParsedUrl>

  const EmptyError := "Please enter a URL"
  const ProtocolError := "URL must start with http:// or https://"
  const InvalidError := "Please enter a valid URL"

  /** `s.startsWith(prefix)`: the empty prefix and the string itself always match, and a match
      agrees with the prefix character by character. */
  predicate StartsWith(s: string, prefix: string): (b: bool)
    ensures prefix == [] ==> b
    ensures s == prefix ==> b
    ensures b ==> |prefix| <= |s| && forall i :: 0 <= i < |prefix| ==> s[i] == prefix[i]
  {
    |prefix| <= |s| && s[..|prefix|] == prefix
  }

  /** What one submission does: call `onSubmit` with a URL, or show a message. */
  datatype Outcome = Submitted(url: string) | Rejected(message: string)

  /** The decision `handleSubmit` takes. */
  function Validate(input: string, parse: UrlParser): (d: Outcome)
    ensures d.Submitted? <==> input != "" && parse(input).Some? && StartsWith(parse(input).value.protocol, "http")
    ensures d.Submitted? ==> d.url == input
    ensures input == "" ==> d == Rejected(EmptyError)
    ensures input != "" && parse(input).None? ==> d == Rejected(InvalidError)
    ensures input != "" && parse(input).Some? && !StartsWith(parse(input).value.protocol, "http") ==>
              d == Rejected(ProtocolError)
  {
    if input == "" then Rejected(EmptyError)
    else match parse(input)
      case None => Rejected(InvalidError)
      case Some(u) => if StartsWith(u.protocol, "http") then Submitted(input) else Rejected(ProtocolError)
  }

  /** The check is a prefix test on the protocol: "http:" and "https:" pass, "ftp:" does not,
      and neither does anything shorter than "http"; a protocol such as "httpx:" passes too. */
  lemma ProtocolCheckIsPrefix(input: string, parse: UrlParser, host: string)
    requires input != ""
    ensures parse(input) == Some(ParsedUrl("https:", host)) ==> Validate(input, parse) == Submitted(input)
    ensures parse(input) == Some(ParsedUrl("http:", host)) ==> Validate(input, parse) == Submitted(input)
    ensures parse(input) == Some(ParsedUrl("httpx:", host)) ==> Validate(input, parse) == Submitted(input)
    ensures parse(input) == Some(ParsedUrl("ftp:", host)) ==> Validate(input, parse) == Rejected(ProtocolError)
  {
    assert "https:"[..4] == "http";
    assert "http:"[..4] == "http";
    assert "httpx:"[..4] == "http";
    assert "ftp:"[0] != "http"[0];
  }

  class Form {
    /** The text field. */
    var url: string
    /** The message shown under the field, `null` as `None`. */
    var error: Option<string>

    constructor ()
      ensures url == "" && error == None
    {
      url := "";
      error := None;
    }

    /** Typing into the field. */
    method SetUrl(text: string)
      modifies this`url
      ensures url == text
    {
      url := text;
    }

    /**
     * `handleSubmit`: `submitted` is the argument of the single `onSubmit` call, or `None`
     * when it is not called. `onSubmit` is called exactly when no error is left set.
     */
    method HandleSubmit(parse: UrlParser) returns (submitted: Option<string>)
      modifies this`error
      ensures submitted.Some? <==> error.None?
      ensures Validate(url, parse).Submitted? ==> submitted == Some(url) && error == None
      ensures Validate(url, parse).Rejected? ==>
                submitted == None && error == Some(Validate(url, parse).message)
    {
      if url == "" {
        error := Some(EmptyError);
        return None;
      }
      var parsed := parse(url);
      if parsed.None? {
        error := Some(InvalidError);
        return None;
      }
      if !StartsWith(parsed.value.protocol, "http") {
        error := Some(ProtocolError);
        return None;
      }
      error := None;
      submitted := Some(url);
    }
  }
}
