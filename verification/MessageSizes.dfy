/** How long the text of a message can be, from the sizes of its parts. */
module MessageSizes {
  import opened ByteStrings
  import opened CanonicalJson
  import opened JsonText
  import opened Messages
  import Base64Url

  // ---------------------------------------------------------------------------------------------
  // The bound
  // ---------------------------------------------------------------------------------------------

  /** A character is written as at most two escaped units, and three bytes as four characters. */
  function Bound(v: Value): nat {
    match v
    case Null => 4
    case Bool(_) => 5
    case Int(i) => (if i < 0 then -i else i) + 2
    case Str(s) => 2 + 12 * |s|
    case Bin(data) => 14 + 24 * |data|
    case Arr(items) => 2 + ItemsBound(items)
    case Obj(fields) => 2 + FieldsBound(fields)
  }

  function ItemsBound(items: seq<Value>): nat {
    if items == [] then 0 else 1 + Bound(items[0]) + ItemsBound(items[1..])
  }

  function FieldBound(f: Field): nat {
    4 + 12 * |f.key| + Bound(f.val)
  }

  function FieldsBound(fields: seq<Field>): nat {
    if fields == [] then 0 else FieldBound(fields[0]) + FieldsBound(fields[1..])
  }

  // ---------------------------------------------------------------------------------------------
  // Texts keep to it
  // ---------------------------------------------------------------------------------------------

  lemma {:induction false} CharsSize(s: string)
    ensures |WriteChars(s)| <= 12 * |s|
  {
    if s != "" {
      CharsSize(s[1..]);
    }
  }

  lemma {:induction false} NatSize(n: nat)
    ensures |WriteNat(n)| <= n + 1
  {
    if n >= 10 {
      NatSize(n / 10);
    }
  }

  lemma {:induction false} WriteSize(v: Value)
    requires IsNormal(v)
    ensures |Write(v)| <= Bound(v)
    decreases v, 0
  {
    match v
    case Int(i) => NatSize(if i < 0 then -i else i);
    case Str(s) => CharsSize(s);
    case Arr(items) =>
      if items != [] {
        ItemsSize(items);
      }
    case Obj(fields) =>
      if fields != [] {
        FieldsSize(fields);
      }
    case _ =>
  }

  lemma {:induction false} ItemsSize(items: seq<Value>)
    requires items != [] && forall i | 0 <= i < |items| :: IsNormal(items[i])
    ensures |WriteItems(items)| <= ItemsBound(items)
    decreases items, 1
  {
    WriteSize(items[0]);
    if |items| > 1 {
      ItemsSize(items[1..]);
    }
  }

  lemma {:induction false} FieldsSize(fields: seq<Field>)
    requires fields != [] && forall i | 0 <= i < |fields| :: IsNormal(fields[i].val)
    ensures |WriteFields(fields)| <= FieldsBound(fields)
    decreases fields, 1
  {
    WriteSize(fields[0].val);
    CharsSize(fields[0].key);
    if |fields| > 1 {
      FieldsSize(fields[1..]);
    }
  }

  // ---------------------------------------------------------------------------------------------
  // The normal form has no larger bound
  // ---------------------------------------------------------------------------------------------

  lemma {:induction false} SextetsSize(data: Bytes)
    ensures |Base64Url.Sextets(data)| <= 2 * |data|
  {
    if |data| >= 3 {
      SextetsSize(data[3..]);
    }
  }

  lemma EncodedSize(data: Bytes)
    ensures |Base64Url.Encode(data)| <= 2 * |data|
  {
    SextetsSize(data);
    var digits := Base64Url.Sextets(data);
    assert |Base64Url.Values(Base64Url.Encode(data))| == |digits|;
  }

  lemma {:induction false} InsertBound(f: Field, fields: seq<Field>)
    ensures FieldsBound(Insert(f, fields)) == FieldBound(f) + FieldsBound(fields)
  {
    if fields != [] && !Less(f.key, fields[0].key) {
      InsertBound(f, fields[1..]);
    }
  }

  lemma {:induction false} SortBound(fields: seq<Field>)
    ensures FieldsBound(Sort(fields)) == FieldsBound(fields)
  {
    if fields != [] {
      SortBound(fields[1..]);
      InsertBound(fields[0], Sort(fields[1..]));
    }
  }

  lemma {:induction false} NormalBound(v: Value)
    ensures Bound(Normal(v)) <= Bound(v)
    decreases v, 0
  {
    match v
    case Bin(data) => EncodedSize(data);
    case Arr(items) => NormalItemsBound(items);
    case Obj(fields) =>
      NormalFieldsBound(fields);
      SortBound(NormalFields(fields));
    case _ =>
  }

  lemma {:induction false} NormalItemsBound(items: seq<Value>)
    ensures ItemsBound(NormalItems(items)) <= ItemsBound(items)
    decreases items, 1
  {
    if items != [] {
      NormalBound(items[0]);
      NormalItemsBound(items[1..]);
    }
  }

  lemma {:induction false} NormalFieldsBound(fields: seq<Field>)
    ensures FieldsBound(NormalFields(fields)) <= FieldsBound(fields)
    decreases fields, 1
  {
    if fields != [] {
      NormalBound(fields[0].val);
      NormalFieldsBound(fields[1..]);
    }
  }

  /** A message's text is no longer than the bound of the message. */
  lemma TextSize(message: Value)
    requires IsMessage(message) && message.Obj?
    ensures |Serialize(message).value| <= Bound(message)
  {
    NormalIsNormal(message);
    WriteSize(Normal(message));
    NormalBound(message);
  }

  lemma {:induction false} FieldsWithin(fields: seq<Field>, limit: nat)
    requires forall i | 0 <= i < |fields| :: FieldBound(fields[i]) <= limit
    ensures FieldsBound(fields) <= |fields| * limit
  {
    hide FieldBound;
    if fields != [] {
      FieldsWithin(fields[1..], limit);
    }
  }
}
