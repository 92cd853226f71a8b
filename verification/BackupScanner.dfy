/** The token cursor over a backup document, and the loops that skip values and count collections. */
module BackupScanner {
  import opened JsonTree

  const MAX_DEPTH := 64
  const MAX_TOTAL := 100_000

  datatype Presence = Missing | WasNull | WasArray

  class Decoder {
    const tokens: seq<Token>
    var pos: nat

    ghost predicate Valid()
      reads this
    {
      pos <= |tokens|
    }

    /** What is still to be read. */
    ghost function Rest(): seq<Token>
      requires Valid()
      reads this
    {
      tokens[pos..]
    }

    constructor (tokens: seq<Token>)
      ensures Valid() && Rest() == tokens && pos == 0
    {
      this.tokens, pos := tokens, 0;
    }

    /** Whether the enclosing array or object has another member. */
    method More() returns (more: bool)
      requires Valid()
      ensures more <==> Rest() != [] && Rest()[0] != CloseBracket && Rest()[0] != CloseBrace
    {
      more := pos < |tokens| && tokens[pos] != CloseBracket && tokens[pos] != CloseBrace;
    }

    method Next() returns (ok: bool, token: Token)
      requires Valid()
      modifies `pos
      ensures Valid() && (ok <==> old(Rest()) != [])
      ensures ok ==> token == old(Rest())[0] && Rest() == old(Rest())[1..]
      ensures !ok ==> pos == old(pos)
    {
      ok, token := pos < |tokens|, NullToken;
      if ok {
        token, pos := tokens[pos], pos + 1;
      }
    }

    /** `skipBackupJSONValue` at the start of the tokens of `v`: succeeds exactly if `v`, placed at
        this depth, stays within the depth limit, and then consumes exactly the tokens of `v`. */
    method Skip(depth: nat, ghost v: JValue, ghost rest: seq<Token>) returns (ok: bool)
      requires Valid() && depth >= 1 && Rest() == Flatten(v) + rest
      modifies `pos
      ensures Valid() && (ok <==> depth + Height(v) - 1 <= MAX_DEPTH)
      ensures ok ==> Rest() == rest
      decreases v, 1
    {
      if depth > MAX_DEPTH {
        return false;
      }
      if v.Array? {
        WholeArray(v.items, rest);
      } else if v.Object? {
        WholeObject(v.fields, rest);
      }
      var more, token := Next();
      match token {
        case OpenBracket => ok := SkipItems(depth, v.items, rest);
        case OpenBrace => ok := SkipFields(depth, v.fields, rest);
        case _ => ok := true;
      }
    }

    /** The members of an array and its closing bracket. */
    method SkipItems(depth: nat, ghost items: seq<JValue>, ghost rest: seq<Token>) returns (ok: bool)
      requires Valid() && 1 <= depth <= MAX_DEPTH && Rest() == ItemsFrom(items, 0, rest)
      modifies `pos
      ensures Valid() && (ok <==> depth + ItemsHeight(items) <= MAX_DEPTH)
      ensures ok ==> Rest() == rest
      decreases items, 0
    {
      ghost var i := 0;
      MoreItems(items, i, rest);
      var more := More();
      while more
        invariant Valid() && 0 <= i <= |items| && Rest() == ItemsFrom(items, i, rest)
        invariant more <==> i < |items|
        invariant forall k :: 0 <= k < i ==> Height(items[k]) <= MAX_DEPTH - depth
        decreases |items| - i
      {
        NextItem(items, i, rest);
        ok := Skip(depth + 1, items[i], ItemsFrom(items, i + 1, rest));
        if !ok {
          ItemsHeightBound(items, MAX_DEPTH - depth);
          return;
        }
        i := i + 1;
        MoreItems(items, i, rest);
        more := More();
      }
      ItemsHeightBound(items, MAX_DEPTH - depth);
      var closing, token := Next();
      ok := closing && token == CloseBracket;
    }

    /** One member of an object. */
    method SkipField(depth: nat, ghost field: Field, ghost rest: seq<Token>) returns (ok: bool)
      requires Valid() && 1 <= depth <= MAX_DEPTH && Rest() == [TextToken(field.name)] + (Flatten(field.value) + rest)
      modifies `pos
      ensures Valid() && (ok <==> Height(field.value) <= MAX_DEPTH - depth)
      ensures ok ==> Rest() == rest
      decreases field, 0
    {
      var named, key := Next();
      if named && key.TextToken? {
        ok := Skip(depth + 1, field.value, rest);
      } else {
        ok := false;
      }
    }

    /** The members of an object and its closing brace. */
    method SkipFields(depth: nat, ghost fields: seq<Field>, ghost rest: seq<Token>) returns (ok: bool)
      requires Valid() && 1 <= depth <= MAX_DEPTH && Rest() == FieldsFrom(fields, 0, rest)
      modifies `pos
      ensures Valid() && (ok <==> depth + FieldsHeight(fields) <= MAX_DEPTH)
      ensures ok ==> Rest() == rest
      decreases fields, 0
    {
      ghost var i := 0;
      MoreFields(fields, i, rest);
      var more := More();
      while more
        invariant Valid() && 0 <= i <= |fields| && Rest() == FieldsFrom(fields, i, rest)
        invariant more <==> i < |fields|
        invariant forall k :: 0 <= k < i ==> Height(fields[k].value) <= MAX_DEPTH - depth
        decreases |fields| - i
      {
        NextField(fields, i, rest);
        ok := SkipField(depth, fields[i], FieldsFrom(fields, i + 1, rest));
        if !ok {
          FieldsHeightBound(fields, MAX_DEPTH - depth);
          return;
        }
        i := i + 1;
        MoreFields(fields, i, rest);
        more := More();
      }
      FieldsHeightBound(fields, MAX_DEPTH - depth);
      var closing, token := Next();
      ok := closing && token == CloseBrace;
    }
  }

  /** The tokens of the items from `i` on, the closing bracket, and what follows. */
  ghost function ItemsFrom(items: seq<JValue>, i: nat, rest: seq<Token>): seq<Token>
    requires i <= |items|
  {
    FlattenItems(items[i..]) + ([CloseBracket] + rest)
  }

  lemma NextItem(items: seq<JValue>, i: nat, rest: seq<Token>)
    requires i < |items|
    ensures ItemsFrom(items, i, rest) == Flatten(items[i]) + ItemsFrom(items, i + 1, rest)
  {
    assert items[i..][1..] == items[i + 1..];
  }

  /** Another item starts exactly if the items are not all read. */
  lemma MoreItems(items: seq<JValue>, i: nat, rest: seq<Token>)
    requires i <= |items|
    ensures ItemsFrom(items, i, rest) != []
    ensures ItemsFrom(items, i, rest)[0] != CloseBracket && ItemsFrom(items, i, rest)[0] != CloseBrace <==> i < |items|
    ensures i == |items| ==> ItemsFrom(items, i, rest) == [CloseBracket] + rest
  {
    if i < |items| {
      NextItem(items, i, rest);
    }
  }

  ghost function FieldsFrom(fields: seq<Field>, i: nat, rest: seq<Token>): seq<Token>
    requires i <= |fields|
  {
    FlattenFields(fields[i..]) + ([CloseBrace] + rest)
  }

  lemma NextField(fields: seq<Field>, i: nat, rest: seq<Token>)
    requires i < |fields|
    ensures FieldsFrom(fields, i, rest)
         == [TextToken(fields[i].name)] + (Flatten(fields[i].value) + FieldsFrom(fields, i + 1, rest))
  {
    assert fields[i..][1..] == fields[i + 1..];
  }

  lemma MoreFields(fields: seq<Field>, i: nat, rest: seq<Token>)
    requires i <= |fields|
    ensures FieldsFrom(fields, i, rest) != []
    ensures FieldsFrom(fields, i, rest)[0] != CloseBracket && FieldsFrom(fields, i, rest)[0] != CloseBrace <==> i < |fields|
    ensures i == |fields| ==> FieldsFrom(fields, i, rest) == [CloseBrace] + rest
  {
    if i < |fields| {
      NextField(fields, i, rest);
    }
  }

  lemma WholeArray(items: seq<JValue>, rest: seq<Token>)
    ensures Flatten(Array(items)) + rest == [OpenBracket] + ItemsFrom(items, 0, rest)
  {
    assert items[0..] == items;
  }

  lemma WholeObject(fields: seq<Field>, rest: seq<Token>)
    ensures Flatten(Object(fields)) + rest == [OpenBrace] + FieldsFrom(fields, 0, rest)
  {
    assert fields[0..] == fields;
  }
}
