/** The duplicate-key scanner of internal/strictjson/strictjson.go: a recursive
    scan over a decoder's token cursor. */
module StrictJson {
  import opened Text

  /** What `json.Decoder.Token` yields: a delimiter, a string, or another scalar. */
  datatype Token = OpenObject | CloseObject | OpenArray | CloseArray | Str(s: string) | Other(text: string)

  predicate IsCloser(t: Token) { t == CloseObject || t == CloseArray }

  /** How the input ends after its last token: cleanly, or with text that is not
      a token, which `More` may or may not take for one. */
  datatype Tail = Eof | Broken(looksLikeMore: bool)

  datatype Stream = Stream(tokens: seq<Token>, tail: Tail)

  datatype Reading = Read(token: Token) | AtEof | Failed

  /** The cursor of `json.Decoder`. */
  class Decoder {
    const stream: Stream
    var pos: nat

    ghost predicate Valid()
      reads this
    {
      pos <= |stream.tokens|
    }

    /** The tokens not yet read. */
    ghost function Rest(): seq<Token>
      requires Valid()
      reads this
    {
      stream.tokens[pos..]
    }

    constructor (stream: Stream)
      ensures Valid() && this.stream == stream && Rest() == stream.tokens
    {
      this.stream := stream;
      this.pos := 0;
    }

    /** Whether the next token exists and is no closer. */
    predicate More()
      requires Valid()
      reads this
    {
      if pos < |stream.tokens| then !IsCloser(stream.tokens[pos])
      else stream.tail.Broken? && stream.tail.looksLikeMore
    }

    method Next() returns (r: Reading)
      requires Valid()
      modifies this`pos
      ensures Valid()
      ensures old(Rest()) != [] ==> r == Read(old(Rest())[0]) && Rest() == old(Rest())[1..]
      ensures old(Rest()) == [] ==> Rest() == [] && r == if stream.tail.Eof? then AtEof else Failed
    {
      if pos < |stream.tokens| {
        r := Read(stream.tokens[pos]);
        pos := pos + 1;
      } else {
        r := if stream.tail.Eof? then AtEof else Failed;
      }
    }
  }

  // ------------------------------------------------------ what the scan computes

  /** The tokens left after scanning one value, or None for an error. */
  function ScanV(ts: seq<Token>): (r: Option<seq<Token>>)
    ensures r.Some? ==> |r.value| < |ts|
    decreases |ts|, 0
  {
    if ts == [] then None
    else match ts[0]
      case OpenObject => ScanMembers(ts[1..], {})
      case OpenArray => ScanElements(ts[1..])
      case CloseObject => None
      case CloseArray => None
      case Str(_) => Some(ts[1..])
      case Other(_) => Some(ts[1..])
  }

  function ScanMembers(ts: seq<Token>, seen: set<string>): (r: Option<seq<Token>>)
    ensures r.Some? ==> |r.value| < |ts|
    decreases |ts|, 1
  {
    if ts == [] then None
    else match ts[0]
      case CloseObject => Some(ts[1..])
      case Str(key) =>
        if key in seen then None
        else (match ScanV(ts[1..])
              case None => None
              case Some(rest) => ScanMembers(rest, seen + {key}))
      case _ => None
  }

  function ScanElements(ts: seq<Token>): (r: Option<seq<Token>>)
    ensures r.Some? ==> |r.value| < |ts|
    decreases |ts|, 1
  {
    if ts == [] then None
    else if ts[0] == CloseArray then Some(ts[1..])
    else match ScanV(ts)
      case None => None
      case Some(rest) => ScanElements(rest)
  }

  // ------------------------------------------------------------------ the scan

  method ScanValue(dec: Decoder) returns (ok: bool)
    requires dec.Valid()
    modifies dec`pos
    ensures dec.Valid()
    ensures ok <==> ScanV(old(dec.Rest())).Some?
    ensures ok ==> dec.Rest() == ScanV(old(dec.Rest())).value
    decreases |dec.stream.tokens| - dec.pos, 0
  {
    var tok := dec.Next();
    if !tok.Read? {
      return false;
    }
    match tok.token
    case OpenObject => ok := ScanObject(dec);
    case OpenArray => ok := ScanArray(dec);
    case CloseObject => return false;
    case CloseArray => return false;
    case Str(_) => return true;
    case Other(_) => return true;
  }

  method ScanObject(dec: Decoder) returns (ok: bool)
    requires dec.Valid()
    modifies dec`pos
    ensures dec.Valid()
    ensures ok <==> ScanMembers(old(dec.Rest()), {}).Some?
    ensures ok ==> dec.Rest() == ScanMembers(old(dec.Rest()), {}).value
    decreases |dec.stream.tokens| - dec.pos, 1
  {
    var seen: set<string> := {};
    while dec.More()
      invariant dec.Valid() && old(dec.pos) <= dec.pos
      invariant ScanMembers(dec.Rest(), seen) == ScanMembers(old(dec.Rest()), {})
      decreases |dec.stream.tokens| - dec.pos
    {
      var tok := dec.Next();
      if !tok.Read? {
        return false;
      }
      if !tok.token.Str? {
        return false;
      }
      var key := tok.token.s;
      if key in seen {
        return false;
      }
      seen := seen + {key};
      var valueOk := ScanValue(dec);
      if !valueOk {
        return false;
      }
    }
    var tok := dec.Next();
    ok := tok == Read(CloseObject);
  }

  method ScanArray(dec: Decoder) returns (ok: bool)
    requires dec.Valid()
    modifies dec`pos
    ensures dec.Valid()
    ensures ok <==> ScanElements(old(dec.Rest())).Some?
    ensures ok ==> dec.Rest() == ScanElements(old(dec.Rest())).value
    decreases |dec.stream.tokens| - dec.pos, 1
  {
    var index := 0;
    while dec.More()
      invariant dec.Valid() && old(dec.pos) <= dec.pos
      invariant ScanElements(dec.Rest()) == ScanElements(old(dec.Rest()))
      decreases |dec.stream.tokens| - dec.pos
    {
      var valueOk := ScanValue(dec);
      if !valueOk {
        return false;
      }
      index := index + 1;
    }
    var tok := dec.Next();
    ok := tok == Read(CloseArray);
  }

  // -------------------------------------------------------------- JSON documents

  datatype Json = Text(s: string) | Scalar(text: string) | Object(members: Members) | Array(elements: Elements)
  datatype Members = NoMembers | Member(key: string, value: Json, rest: Members)
  datatype Elements = NoElements | Element(value: Json, rest: Elements)

  function Tokens(v: Json): (ts: seq<Token>)
    ensures ts != [] && !IsCloser(ts[0])
  {
    match v
    case Text(s) => [Str(s)]
    case Scalar(text) => [Other(text)]
    case Object(ms) => [OpenObject] + MemberTokens(ms) + [CloseObject]
    case Array(es) => [OpenArray] + ElementTokens(es) + [CloseArray]
  }

  function MemberTokens(ms: Members): seq<Token> {
    match ms
    case NoMembers => []
    case Member(key, value, rest) => [Str(key)] + Tokens(value) + MemberTokens(rest)
  }

  function ElementTokens(es: Elements): seq<Token> {
    match es
    case NoElements => []
    case Element(value, rest) => Tokens(value) + ElementTokens(rest)
  }

  /** No object at any depth repeats a key. */
  predicate UniqueKeys(v: Json) {
    match v
    case Text(_) => true
    case Scalar(_) => true
    case Object(ms) => UniqueMembers(ms, {})
    case Array(es) => UniqueElements(es)
  }

  predicate UniqueMembers(ms: Members, seen: set<string>) {
    match ms
    case NoMembers => true
    case Member(key, value, rest) => key !in seen && UniqueKeys(value) && UniqueMembers(rest, seen + {key})
  }

  predicate UniqueElements(es: Elements) {
    match es
    case NoElements => true
    case Element(value, rest) => UniqueKeys(value) && UniqueElements(rest)
  }

  // ---------------------------------------------------------------- main results

  /** Scanning a document's tokens reads exactly those tokens, whatever follows,
      and fails exactly when some object repeats a key. */
  lemma {:induction false} ScanReadsValue(v: Json, rest: seq<Token>)
    ensures ScanV(Tokens(v) + rest) == if UniqueKeys(v) then Some(rest) else None
    decreases v, 1
  {
    var ts := Tokens(v) + rest;
    match v
    case Text(_) => assert ts[1..] == rest;
    case Scalar(_) => assert ts[1..] == rest;
    case Object(ms) =>
      ScanReadsMembers(ms, {}, rest);
      ObjectBody(ms, rest);
    case Array(es) =>
      ScanReadsElements(es, rest);
      ArrayBody(es, rest);
  }

  lemma ObjectBody(ms: Members, rest: seq<Token>)
    ensures (Tokens(Object(ms)) + rest)[1..] == MemberTokens(ms) + [CloseObject] + rest
  {
  }

  lemma ArrayBody(es: Elements, rest: seq<Token>)
    ensures (Tokens(Array(es)) + rest)[1..] == ElementTokens(es) + [CloseArray] + rest
  {
  }

  lemma MemberSplit(ms: Members, rest: seq<Token>)
    requires ms.Member?
    ensures MemberTokens(ms) + [CloseObject] + rest
      == [Str(ms.key)] + (Tokens(ms.value) + (MemberTokens(ms.rest) + [CloseObject] + rest))
  {
  }

  lemma {:induction false} ScanReadsMembers(ms: Members, seen: set<string>, rest: seq<Token>)
    ensures ScanMembers(MemberTokens(ms) + [CloseObject] + rest, seen)
         == if UniqueMembers(ms, seen) then Some(rest) else None
    decreases ms, 0
  {
    var ts := MemberTokens(ms) + [CloseObject] + rest;
    match ms
    case NoMembers => assert ts[1..] == rest;
    case Member(key, value, more) =>
      var after := MemberTokens(more) + [CloseObject] + rest;
      MemberSplit(ms, rest);
      assert ts[1..] == Tokens(value) + after;
      ScanReadsValue(value, after);
      ScanReadsMembers(more, seen + {key}, rest);
  }

  lemma ElementSplit(es: Elements, rest: seq<Token>)
    requires es.Element?
    ensures ElementTokens(es) + [CloseArray] + rest == Tokens(es.value) + (ElementTokens(es.rest) + [CloseArray] + rest)
  {
  }

  lemma {:induction false} ScanReadsElements(es: Elements, rest: seq<Token>)
    ensures ScanElements(ElementTokens(es) + [CloseArray] + rest)
         == if UniqueElements(es) then Some(rest) else None
    decreases es, 0
  {
    var ts := ElementTokens(es) + [CloseArray] + rest;
    match es
    case NoElements => assert ts[1..] == rest;
    case Element(value, more) =>
      var after := ElementTokens(more) + [CloseArray] + rest;
      assert ts == Tokens(value) + after && ts[0] == Tokens(value)[0];
      ScanReadsValue(value, after);
      ScanReadsElements(more, rest);
  }

  /** Whatever the scan accepts is the tokens of a document with unique keys. */
  lemma {:induction false} ScanFindsValue(ts: seq<Token>) returns (v: Json)
    requires ScanV(ts).Some?
    ensures UniqueKeys(v) && ts == Tokens(v) + ScanV(ts).value
    decreases |ts|, 0
  {
    match ts[0]
    case Str(s) => v := Text(s);
    case Other(text) => v := Scalar(text);
    case OpenObject =>
      var ms := ScanFindsMembers(ts[1..], {});
      v := Object(ms);
      assert ts == [OpenObject] + ts[1..];
    case OpenArray =>
      var es := ScanFindsElements(ts[1..]);
      v := Array(es);
      assert ts == [OpenArray] + ts[1..];
  }

  lemma {:induction false} ScanFindsMembers(ts: seq<Token>, seen: set<string>) returns (ms: Members)
    requires ScanMembers(ts, seen).Some?
    ensures UniqueMembers(ms, seen) && ts == MemberTokens(ms) + [CloseObject] + ScanMembers(ts, seen).value
    decreases |ts|, 1
  {
    if ts[0] == CloseObject {
      ms := NoMembers;
    } else {
      var key := ts[0].s;
      var value := ScanFindsValue(ts[1..]);
      var more := ScanFindsMembers(ScanV(ts[1..]).value, seen + {key});
      ms := Member(key, value, more);
      MemberSplit(ms, ScanMembers(ts, seen).value);
      assert ts == [Str(key)] + ts[1..];
    }
  }

  lemma {:induction false} ScanFindsElements(ts: seq<Token>) returns (es: Elements)
    requires ScanElements(ts).Some?
    ensures UniqueElements(es) && ts == ElementTokens(es) + [CloseArray] + ScanElements(ts).value
    decreases |ts|, 1
  {
    if ts[0] == CloseArray {
      es := NoElements;
    } else {
      var value := ScanFindsValue(ts);
      var more := ScanFindsElements(ScanV(ts).value);
      es := Element(value, more);
    }
  }

  /** A token stream is one document in at most one way, whatever follows it. */
  lemma {:induction false} TokensUnique(v: Json, w: Json, rest1: seq<Token>, rest2: seq<Token>)
    requires Tokens(v) + rest1 == Tokens(w) + rest2
    ensures v == w && rest1 == rest2
    decreases v, 1
  {
    var ts, us := Tokens(v) + rest1, Tokens(w) + rest2;
    assert ts[0] == us[0] && ts[1..] == us[1..];
    match v
    case Text(_) => assert ts[1..] == rest1 && us[1..] == rest2;
    case Scalar(_) => assert ts[1..] == rest1 && us[1..] == rest2;
    case Object(ms) =>
      ObjectBody(ms, rest1);
      ObjectBody(w.members, rest2);
      MemberTokensUnique(ms, w.members, rest1, rest2);
    case Array(es) =>
      ArrayBody(es, rest1);
      ArrayBody(w.elements, rest2);
      ElementTokensUnique(es, w.elements, rest1, rest2);
  }

  lemma {:induction false} MemberTokensUnique(ms: Members, ns: Members, rest1: seq<Token>, rest2: seq<Token>)
    requires MemberTokens(ms) + [CloseObject] + rest1 == MemberTokens(ns) + [CloseObject] + rest2
    ensures ms == ns && rest1 == rest2
    decreases ms, 0
  {
    var ts, us := MemberTokens(ms) + [CloseObject] + rest1, MemberTokens(ns) + [CloseObject] + rest2;
    assert ts[0] == us[0] && ts[1..] == us[1..];
    if ms.NoMembers? {
      assert ns.NoMembers?;
      assert ts[1..] == rest1 && us[1..] == rest2;
    } else {
      assert ts[0] == Str(ms.key) && ns.Member?;
      var after1 := MemberTokens(ms.rest) + [CloseObject] + rest1;
      var after2 := MemberTokens(ns.rest) + [CloseObject] + rest2;
      MemberSplit(ms, rest1);
      MemberSplit(ns, rest2);
      assert ts[1..] == Tokens(ms.value) + after1 && us[1..] == Tokens(ns.value) + after2;
      TokensUnique(ms.value, ns.value, after1, after2);
      MemberTokensUnique(ms.rest, ns.rest, rest1, rest2);
    }
  }

  lemma FirstElementToken(es: Elements, rest: seq<Token>)
    ensures (ElementTokens(es) + [CloseArray] + rest)[0] == CloseArray <==> es.NoElements?
  {
    if es.Element? {
      assert (ElementTokens(es) + [CloseArray] + rest)[0] == Tokens(es.value)[0];
    }
  }

  lemma {:induction false} ElementTokensUnique(es: Elements, fs: Elements, rest1: seq<Token>, rest2: seq<Token>)
    requires ElementTokens(es) + [CloseArray] + rest1 == ElementTokens(fs) + [CloseArray] + rest2
    ensures es == fs && rest1 == rest2
    decreases es, 0
  {
    var ts, us := ElementTokens(es) + [CloseArray] + rest1, ElementTokens(fs) + [CloseArray] + rest2;
    FirstElementToken(es, rest1);
    FirstElementToken(fs, rest2);
    if es.NoElements? {
      assert ts[1..] == rest1 && us[1..] == rest2;
    } else {
      var after1 := ElementTokens(es.rest) + [CloseArray] + rest1;
      var after2 := ElementTokens(fs.rest) + [CloseArray] + rest2;
      ElementSplit(es, rest1);
      ElementSplit(fs, rest2);
      TokensUnique(es.value, fs.value, after1, after2);
      ElementTokensUnique(es.rest, fs.rest, rest1, rest2);
    }
  }

  // -------------------------------------------------------------- entry points

  /** The input is one document, in which no object repeats a key. */
  ghost predicate IsStrictDocument(input: Stream) {
    input.tail.Eof? && exists v :: UniqueKeys(v) && input.tokens == Tokens(v)
  }

  /** `RejectDuplicateObjectKeys` returns no error. */
  predicate Accepts(input: Stream) {
    ScanV(input.tokens) == Some([]) && input.tail.Eof?
  }

  lemma AcceptsIff(input: Stream)
    ensures Accepts(input) <==> IsStrictDocument(input)
  {
    if Accepts(input) {
      var v := ScanFindsValue(input.tokens);
      assert Tokens(v) + [] == Tokens(v);
    }
    if IsStrictDocument(input) {
      var v :| UniqueKeys(v) && input.tokens == Tokens(v);
      ScanReadsValue(v, []);
      assert Tokens(v) + [] == Tokens(v);
    }
  }

  /** On a well-formed document, the verdict is about its keys and nothing else. */
  lemma AcceptsDocumentIff(v: Json)
    ensures Accepts(Stream(Tokens(v), Eof)) <==> UniqueKeys(v)
  {
    ScanReadsValue(v, []);
    assert Tokens(v) + [] == Tokens(v);
  }

  method RejectDuplicateObjectKeys(input: Stream) returns (ok: bool)
    ensures ok <==> IsStrictDocument(input)
  {
    AcceptsIff(input);
    var dec := new Decoder(input);
    var valueOk := ScanValue(dec);
    if !valueOk {
      return false;
    }
    var tok := dec.Next();
    ok := tok == AtEof;
  }
}
