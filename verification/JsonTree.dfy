/** JSON values as trees and as the token sequences a streaming decoder returns (RFC 8259, sections 4 and 5). */
module JsonTree {

  /** Numbers and booleans are all alike to the scanner. */
  datatype JValue = Null | Scalar | Text(text: string) | Array(items: seq<JValue>) | Object(fields: seq<Field>)

  datatype Field = Field(name: string, value: JValue)

  datatype Token = NullToken | ScalarToken | TextToken(text: string)
                 | OpenBracket | CloseBracket | OpenBrace | CloseBrace

  function Flatten(v: JValue): (tokens: seq<Token>)
    ensures tokens != [] && tokens[0] != CloseBracket && tokens[0] != CloseBrace
  {
    match v
    case Null => [NullToken]
    case Scalar => [ScalarToken]
    case Text(t) => [TextToken(t)]
    case Array(items) => [OpenBracket] + FlattenItems(items) + [CloseBracket]
    case Object(fields) => [OpenBrace] + FlattenFields(fields) + [CloseBrace]
  }

  function FlattenItems(items: seq<JValue>): seq<Token> {
    if items == [] then [] else Flatten(items[0]) + FlattenItems(items[1..])
  }

  function FlattenFields(fields: seq<Field>): seq<Token> {
    if fields == [] then []
    else [TextToken(fields[0].name)] + Flatten(fields[0].value) + FlattenFields(fields[1..])
  }

  /** A scalar has height 1, a container one more than its highest member. */
  function Height(v: JValue): nat {
    match v
    case Array(items) => 1 + ItemsHeight(items)
    case Object(fields) => 1 + FieldsHeight(fields)
    case _ => 1
  }

  function Max(a: nat, b: nat): nat { if a < b then b else a }

  function ItemsHeight(items: seq<JValue>): nat {
    if items == [] then 0 else Max(Height(items[0]), ItemsHeight(items[1..]))
  }

  function FieldsHeight(fields: seq<Field>): nat {
    if fields == [] then 0 else Max(Height(fields[0].value), FieldsHeight(fields[1..]))
  }

  lemma {:induction false} ItemsHeightBound(items: seq<JValue>, h: nat)
    ensures ItemsHeight(items) <= h <==> forall i :: 0 <= i < |items| ==> Height(items[i]) <= h
  {
    if items != [] {
      ItemsHeightBound(items[1..], h);
      assert forall i :: 0 < i < |items| ==> items[i] == items[1..][i - 1];
    }
  }

  lemma {:induction false} FieldsHeightBound(fields: seq<Field>, h: nat)
    ensures FieldsHeight(fields) <= h <==> forall i :: 0 <= i < |fields| ==> Height(fields[i].value) <= h
  {
    if fields != [] {
      FieldsHeightBound(fields[1..], h);
      assert forall i :: 0 < i < |fields| ==> fields[i] == fields[1..][i - 1];
    }
  }
}
