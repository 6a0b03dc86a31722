/** JSON values as `server.mjs` and its checker handle them after `JSON.parse`, with the
    JavaScript operations it applies to them: property access, truthiness and
    `String(...)`. Serialisation and parsing are left abstract: a `JsonCodec`
    pairs `JSON.stringify` with UTF-8 decoding followed by `JSON.parse`. */
module JsonValues {
  import opened Wrappers
  import opened Encoding

  /** A JSON value. Numbers are modelled as integers; object members keep
      their textual order. */
  datatype Json =
    | JNull
    | JBool(b: bool)
    | JNum(n: int)
    | JStr(s: string)
    | JArr(items: seq<Json>)
    | JObj(members: seq<(string, Json)>)

  /** The value bound to `key` among `members`; a later duplicate wins, as in `JSON.parse`. */
  function Lookup(members: seq<(string, Json)>, key: string): (r: Option<Json>)
    decreases |members|
  {
    if members == [] then None
    else if members[|members| - 1].0 == key then Some(members[|members| - 1].1)
    else Lookup(members[..|members| - 1], key)
  }

  /** A key is missing exactly when no member carries it, and a key that is
      found is bound to what was found by some member. */
  lemma {:induction false} LookupFinds(members: seq<(string, Json)>, key: string)
    ensures Lookup(members, key).None? <==> forall i :: 0 <= i < |members| ==> members[i].0 != key
    ensures Lookup(members, key).Some? ==>
      exists i :: 0 <= i < |members| && members[i] == (key, Lookup(members, key).value)
    decreases |members|
  {
    if members != [] {
      var init := members[..|members| - 1];
      LookupFinds(init, key);
      assert forall i :: 0 <= i < |init| ==> init[i] == members[i];
    }
  }

  /** A member appended under another key does not hide an earlier one. */
  lemma LookupLater(members: seq<(string, Json)>, key: string, value: Json, other: string)
    requires key != other
    ensures Lookup(members + [(key, value)], other) == Lookup(members, other)
  {
    assert (members + [(key, value)])[..|members|] == members;
  }

  /** Property access `v.key`: `undefined` (None) unless `v` is an object that
      has the key. */
  function Get(v: Json, key: string): Option<Json>
  {
    if v.JObj? then Lookup(v.members, key) else None
  }

  /** JavaScript truthiness: `!v` holds exactly for these JSON values. */
  predicate Falsy(v: Json)
  {
    v == JNull || v == JBool(false) || v == JNum(0) || v == JStr("")
  }

  /** `String(v)` and template interpolation `${v}`; `None` is `undefined`. */
  function JsText(v: Option<Json>): string
  {
    match v
    case None => "undefined"
    case Some(j) => ValueText(j)
  }

  function ValueText(j: Json): string
    decreases j, 1
  {
    match j
    case JNull => "null"
    case JBool(b) => if b then "true" else "false"
    case JNum(n) => IntText(n)
    case JStr(s) => s
    case JObj(_) => "[object Object]"
    case JArr(items) => ItemsText(j, items)
  }

  /** `Array.prototype.toString`: the items joined by commas, `null` as empty text. */
  function ItemsText(j: Json, items: seq<Json>): string
    requires forall i :: 0 <= i < |items| ==> items[i] < j
    decreases j, 0, |items|
  {
    if items == [] then ""
    else
      var first := if items[0] == JNull then "" else ValueText(items[0]);
      if |items| == 1 then first else first + "," + ItemsText(j, items[1..])
  }

  /** The outcome of `JSON.parse`: a value, or the text `String(error)` of the
      thrown SyntaxError. */
  datatype Parsed = Parsed(value: Json) | SyntaxError(text: string)

  /** The text of the SyntaxError that `JSON.parse("")` throws (V8's wording). */
  const EMPTY_INPUT_ERROR := "SyntaxError: Unexpected end of JSON input"

  /** `JSON.stringify` and, on bytes, UTF-8 decoding followed by `JSON.parse`. */
  datatype Engine = Engine(stringify: Json -> string, parse: seq<Byte> -> Parsed)

  /** An engine whose `JSON.parse("")` throws, as every `JSON.parse` does: the
      empty payload of `Content-Length: 0` and the zero-length read after a
      non-numeric length are the same call. */
  type JsonCodec = e: Engine | e.parse([]) == SyntaxError(EMPTY_INPUT_ERROR)
    witness Engine(v => "", bytes => SyntaxError(EMPTY_INPUT_ERROR))

  /** Parsing the UTF-8 encoding of `v`'s serialisation gives `v` back. */
  predicate Inverts(c: JsonCodec, v: Json)
  {
    c.parse(Utf8(c.stringify(v))) == Parsed(v)
  }

  /** The payload bytes of each message: its serialisation in UTF-8. */
  function Payloads(codec: JsonCodec, messages: seq<Json>): (ps: seq<seq<Byte>>)
    ensures |ps| == |messages|
    ensures forall i :: 0 <= i < |messages| ==> ps[i] == Utf8(codec.stringify(messages[i]))
  {
    if messages == [] then [] else [Utf8(codec.stringify(messages[0]))] + Payloads(codec, messages[1..])
  }

  /** Every payload parses. */
  predicate ParsesAll(codec: JsonCodec, payloads: seq<seq<Byte>>)
  {
    forall i :: 0 <= i < |payloads| ==> codec.parse(payloads[i]).Parsed?
  }

  /** The values the payloads parse to, in order. */
  function Values(codec: JsonCodec, payloads: seq<seq<Byte>>): (vs: seq<Json>)
    requires ParsesAll(codec, payloads)
    ensures |vs| == |payloads|
    ensures forall i :: 0 <= i < |payloads| ==> codec.parse(payloads[i]) == Parsed(vs[i])
  {
    if payloads == [] then [] else [codec.parse(payloads[0]).value] + Values(codec, payloads[1..])
  }
}
