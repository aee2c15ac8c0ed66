/** The domain package's own duplicate-key scanner and payload rules of
    internal/domain/json.go. It keeps a scanner of its own so as to import nothing
    but the standard library; both scanners are proved against one specification. */
module DomainJson {
  import opened StrictJson

  method ScanJSONValue(dec: Decoder) returns (ok: bool)
    requires dec.Valid()
    modifies dec`pos
    ensures dec.Valid()
    ensures ok <==> ScanV(old(dec.Rest())).Some?
    ensures ok ==> dec.Rest() == ScanV(old(dec.Rest())).value
    decreases |dec.stream.tokens| - dec.pos, 0
  {
    var tok := dec.Next();
    if !tok.Read? {
      return false;
    }
    match tok.token
    case OpenObject => ok := ScanJSONObject(dec);
    case OpenArray => ok := ScanJSONArray(dec);
    case CloseObject => return false;
    case CloseArray => return false;
    case Str(_) => return true;
    case Other(_) => return true;
  }

  method ScanJSONObject(dec: Decoder) returns (ok: bool)
    requires dec.Valid()
    modifies dec`pos
    ensures dec.Valid()
    ensures ok <==> ScanMembers(old(dec.Rest()), {}).Some?
    ensures ok ==> dec.Rest() == ScanMembers(old(dec.Rest()), {}).value
    decreases |dec.stream.tokens| - dec.pos, 1
  {
    var seen: set<string> := {};
    while dec.More()
      invariant dec.Valid() && old(dec.pos) <= dec.pos
      invariant ScanMembers(dec.Rest(), seen) == ScanMembers(old(dec.Rest()), {})
      decreases |dec.stream.tokens| - dec.pos
    {
      var tok := dec.Next();
      if !tok.Read? {
        return false;
      }
      if !tok.token.Str? {
        return false;
      }
      var key := tok.token.s;
      if key in seen {
        return false;
      }
      seen := seen + {key};
      var valueOk := ScanJSONValue(dec);
      if !valueOk {
        return false;
      }
    }
    var tok := dec.Next();
    ok := tok == Read(CloseObject);
  }

  method ScanJSONArray(dec: Decoder) returns (ok: bool)
    requires dec.Valid()
    modifies dec`pos
    ensures dec.Valid()
    ensures ok <==> ScanElements(old(dec.Rest())).Some?
    ensures ok ==> dec.Rest() == ScanElements(old(dec.Rest())).value
    decreases |dec.stream.tokens| - dec.pos, 1
  {
    var index := 0;
    while dec.More()
      invariant dec.Valid() && old(dec.pos) <= dec.pos
      invariant ScanElements(dec.Rest()) == ScanElements(old(dec.Rest()))
      decreases |dec.stream.tokens| - dec.pos
    {
      var valueOk := ScanJSONValue(dec);
      if !valueOk {
        return false;
      }
      index := index + 1;
    }
    var tok := dec.Next();
    ok := tok == Read(CloseArray);
  }

  /** `rejectDuplicateObjectKeys`, with the verdict of the exported scanner. */
  method RejectDuplicateObjectKeys(input: Stream) returns (ok: bool)
    ensures ok <==> IsStrictDocument(input)
  {
    AcceptsIff(input);
    var dec := new Decoder(input);
    var valueOk := ScanJSONValue(dec);
    if !valueOk {
      return false;
    }
    var tok := dec.Next();
    ok := tok == AtEof;
  }

  /** A `json.RawMessage`: no bytes at all, or text that a decoder reads. */
  datatype RawMessage = NoBytes | Bytes(input: Stream)

  /** `requireValidJSON` returns no error. */
  predicate IsValidJSON(raw: RawMessage) {
    raw.Bytes? && Accepts(raw.input)
  }

  method RequireValidJSON(raw: RawMessage) returns (ok: bool)
    ensures ok <==> IsValidJSON(raw)
    ensures ok <==> raw.Bytes? && IsStrictDocument(raw.input)
  {
    if raw.NoBytes? {
      return false;
    }
    AcceptsIff(raw.input);
    ok := RejectDuplicateObjectKeys(raw.input);
  }

  /** `defaultJSONObject` of internal/domain/report.go. */
  function DefaultJSONObject(raw: RawMessage): RawMessage {
    if raw.NoBytes? then Bytes(Stream(Tokens(Object(NoMembers)), Eof)) else raw
  }

  lemma DefaultObjectIsValid()
    ensures IsValidJSON(DefaultJSONObject(NoBytes))
  {
    AcceptsDocumentIff(Object(NoMembers));
  }
}
