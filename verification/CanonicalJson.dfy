/**
  Canonical JSON: keys sorted, no white space, non-printable and non-ASCII characters escaped,
  and bytes values written as base64url strings.
*/
module CanonicalJson {
  import opened Wrappers
  import opened ByteStrings
  import Base64Url

  /** The Python values a message is made of. The fields of an Obj are in insertion order. */
  datatype Value =
    | Null
    | Bool(b: bool)
    | Int(i: int)
    | Str(s: string)
    | Bin(data: Bytes)
    | Arr(items: seq<Value>)
    | Obj(fields: seq<Field>)
  {
    /** `d.get(key)` on a dictionary. */
    function Get(key: string): Option<Value>
      requires Obj?
    {
      Find(fields, key)
    }
  }

  datatype Field = Field(key: string, val: Value)

  function Find(fields: seq<Field>, key: string): Option<Value> {
    if fields == [] then None
    else if fields[0].key == key then Some(fields[0].val)
    else Find(fields[1..], key)
  }

  // ---------------------------------------------------------------------------------------------
  // Normal form: sorted keys, bytes replaced by their base64url text
  // ---------------------------------------------------------------------------------------------

  /** The order of Python strings: by code point, a proper prefix first. */
  predicate Less(a: string, b: string) {
    b != "" && (a == "" || a[0] < b[0] || (a[0] == b[0] && Less(a[1..], b[1..])))
  }

  lemma {:induction false} LessTotal(a: string, b: string)
    ensures Less(a, b) || a == b || Less(b, a)
    ensures !(Less(a, b) && Less(b, a))
    ensures !Less(a, a)
  {
    if a != "" {
      LessTotal(a[1..], a[1..]);
    }
    if a != "" && b != "" {
      LessTotal(a[1..], b[1..]);
      if a[0] == b[0] && a[1..] == b[1..] {
        assert a == [a[0]] + a[1..];
        assert b == [b[0]] + b[1..];
      }
    }
  }

  lemma {:induction false} LessTransitive(a: string, b: string, c: string)
    requires Less(a, b) && Less(b, c)
    ensures Less(a, c)
  {
    if a != "" && a[0] == b[0] && b[0] == c[0] {
      LessTransitive(a[1..], b[1..], c[1..]);
    }
  }

  function Insert(f: Field, fields: seq<Field>): seq<Field> {
    if fields == [] || Less(f.key, fields[0].key) then [f] + fields
    else [fields[0]] + Insert(f, fields[1..])
  }

  function Sort(fields: seq<Field>): seq<Field> {
    if fields == [] then [] else Insert(fields[0], Sort(fields[1..]))
  }

  function Normal(v: Value): Value {
    match v
    case Bin(data) => Str(Base64Url.Encode(data))
    case Arr(items) => Arr(NormalItems(items))
    case Obj(fields) => Obj(Sort(NormalFields(fields)))
    case _ => v
  }

  function NormalItems(items: seq<Value>): (r: seq<Value>)
    ensures |r| == |items|
    ensures forall i | 0 <= i < |items| :: r[i] == Normal(items[i])
  {
    if items == [] then [] else [Normal(items[0])] + NormalItems(items[1..])
  }

  function NormalFields(fields: seq<Field>): (r: seq<Field>)
    ensures |r| == |fields|
    ensures forall i | 0 <= i < |fields| :: r[i] == Field(fields[i].key, Normal(fields[i].val))
  {
    if fields == [] then []
    else [Field(fields[0].key, Normal(fields[0].val))] + NormalFields(fields[1..])
  }

  predicate Distinct(fields: seq<Field>) {
    forall i, j | 0 <= i < j < |fields| :: fields[i].key != fields[j].key
  }

  /** Every dictionary in the value has distinct keys, as a Python dictionary has. */
  predicate IsMessage(v: Value) {
    match v
    case Arr(items) => forall i | 0 <= i < |items| :: IsMessage(items[i])
    case Obj(fields) => Distinct(fields) && forall i | 0 <= i < |fields| :: IsMessage(fields[i].val)
    case _ => true
  }

  predicate Sorted(fields: seq<Field>) {
    forall i, j | 0 <= i < j < |fields| :: Less(fields[i].key, fields[j].key)
  }

  /** A value in normal form. */
  predicate IsNormal(v: Value) {
    match v
    case Bin(_) => false
    case Arr(items) => forall i | 0 <= i < |items| :: IsNormal(items[i])
    case Obj(fields) => Sorted(fields) && forall i | 0 <= i < |fields| :: IsNormal(fields[i].val)
    case _ => true
  }

  lemma {:induction false} InsertContents(f: Field, fields: seq<Field>)
    ensures multiset(Insert(f, fields)) == multiset(fields) + multiset{f}
  {
    if !(fields == [] || Less(f.key, fields[0].key)) {
      InsertContents(f, fields[1..]);
      assert fields == [fields[0]] + fields[1..];
    }
  }

  lemma {:induction false} SortContents(fields: seq<Field>)
    ensures multiset(Sort(fields)) == multiset(fields)
  {
    if fields != [] {
      SortContents(fields[1..]);
      InsertContents(fields[0], Sort(fields[1..]));
      assert fields == [fields[0]] + fields[1..];
    }
  }

  lemma MemberOfMultiset<T>(s: seq<T>, t: seq<T>, x: T)
    requires multiset(s) == multiset(t)
    ensures x in s <==> x in t
  {
    assert x in s <==> x in multiset(s);
    assert x in t <==> x in multiset(t);
  }

  lemma {:induction false} InsertSorted(f: Field, fields: seq<Field>)
    requires Sorted(fields)
    requires forall g | g in fields :: g.key != f.key
    ensures Sorted(Insert(f, fields))
  {
    if fields == [] {
    } else if Less(f.key, fields[0].key) {
      forall j | 0 <= j < |fields| ensures Less(f.key, fields[j].key) {
        if j > 0 {
          LessTransitive(f.key, fields[0].key, fields[j].key);
        }
      }
    } else {
      LessTotal(f.key, fields[0].key);
      var rest := fields[1..];
      InsertSorted(f, rest);
      InsertContents(f, rest);
      var r := Insert(f, rest);
      forall j | 0 <= j < |r| ensures Less(fields[0].key, r[j].key) {
        assert r[j] in multiset(r);
        if r[j] != f {
          assert r[j] in multiset(rest);
          assert r[j] in rest;
        }
      }
    }
  }

  lemma {:induction false} SortSorted(fields: seq<Field>)
    requires Distinct(fields)
    ensures Sorted(Sort(fields))
  {
    if fields != [] {
      SortSorted(fields[1..]);
      SortContents(fields[1..]);
      forall g | g in Sort(fields[1..]) ensures g.key != fields[0].key {
        MemberOfMultiset(Sort(fields[1..]), fields[1..], g);
      }
      InsertSorted(fields[0], Sort(fields[1..]));
    }
  }

  /** Normalising a message gives a value in normal form. */
  lemma {:induction false} NormalIsNormal(v: Value)
    requires IsMessage(v)
    ensures IsNormal(Normal(v))
  {
    match v
    case Arr(items) =>
      forall i | 0 <= i < |items| ensures IsNormal(Normal(items[i])) {
        NormalIsNormal(items[i]);
      }
    case Obj(fields) =>
      var nf := NormalFields(fields);
      forall i | 0 <= i < |fields| ensures IsNormal(nf[i].val) {
        NormalIsNormal(fields[i].val);
      }
      SortSorted(nf);
      SortContents(nf);
      forall i | 0 <= i < |Sort(nf)| ensures IsNormal(Sort(nf)[i].val) {
        MemberOfMultiset(Sort(nf), nf, Sort(nf)[i]);
      }
    case _ =>
  }

  lemma SortedDistinct(fields: seq<Field>)
    requires Sorted(fields)
    ensures Distinct(fields)
  {
    forall i, j | 0 <= i < j < |fields| ensures fields[i].key != fields[j].key {
      LessTotal(fields[i].key, fields[j].key);
    }
  }

  lemma {:induction false} NormalIsMessage(v: Value)
    requires IsNormal(v)
    ensures IsMessage(v)
  {
    match v
    case Arr(items) =>
      forall i | 0 <= i < |items| ensures IsMessage(items[i]) {
        NormalIsMessage(items[i]);
      }
    case Obj(fields) =>
      SortedDistinct(fields);
      forall i | 0 <= i < |fields| ensures IsMessage(fields[i].val) {
        NormalIsMessage(fields[i].val);
      }
    case _ =>
  }

  lemma {:induction false} NormalOfNormalFields(fields: seq<Field>)
    requires Sorted(fields)
    ensures Sort(fields) == fields
  {
    if fields != [] {
      NormalOfNormalFields(fields[1..]);
      assert fields == [fields[0]] + fields[1..];
    }
  }

  /** A value in normal form is its own normal form. */
  lemma {:induction false} NormalIdempotent(v: Value)
    requires IsNormal(v)
    ensures Normal(v) == v
  {
    match v
    case Arr(items) =>
      forall i | 0 <= i < |items| ensures Normal(items[i]) == items[i] {
        NormalIdempotent(items[i]);
      }
      assert NormalItems(items) == items;
    case Obj(fields) =>
      forall i | 0 <= i < |fields| ensures Normal(fields[i].val) == fields[i].val {
        NormalIdempotent(fields[i].val);
      }
      assert NormalFields(fields) == fields;
      NormalOfNormalFields(fields);
    case _ =>
  }

  // ---------------------------------------------------------------------------------------------
  // Insertion order does not matter
  // ---------------------------------------------------------------------------------------------

  /** Python's `==`: dictionaries are compared without regard to the order of their keys. */
  ghost predicate SameMessage(a: Value, b: Value) {
    match (a, b)
    case (Arr(x), Arr(y)) => |x| == |y| && forall i | 0 <= i < |x| :: SameMessage(x[i], y[i])
    case (Obj(x), Obj(y)) => SameFields(x, y)
    case _ => a == b
  }

  ghost predicate SameFields(x: seq<Field>, y: seq<Field>) {
    |x| == |y| &&
    forall i | 0 <= i < |x| :: exists j | 0 <= j < |y| :: x[i].key == y[j].key && SameMessage(x[i].val, y[j].val)
  }

  lemma {:induction false} SortedUnique(a: seq<Field>, b: seq<Field>)
    requires Sorted(a) && Sorted(b)
    requires |a| == |b|
    requires forall f | f in a :: f in b
    ensures a == b
  {
    if a != [] {
      var last := |a| - 1;
      assert a[last] in b;
      var k :| 0 <= k < |b| && b[k] == a[last];
      var a', b' := a[..last], b[..last];
      if k < last {
        AllBelow(a', b[..k], a[last].key, b);
        assert false;
      }
      forall f | f in a' ensures f in b' {
        var i :| 0 <= i < last && a'[i] == f;
        assert Less(a[i].key, a[last].key);
        LessTotal(a[i].key, a[last].key);
        assert a[i] in b;
        var m :| 0 <= m < |b| && b[m] == f;
        assert b'[m] == f;
      }
      SortedUnique(a', b');
      assert a == a' + [a[last]];
      assert b == b' + [b[last]];
    }
  }

  /** A sorted list is no longer than the part of another list that its members must come from. */
  lemma {:induction false} AllBelow(a: seq<Field>, b: seq<Field>, bound: string, whole: seq<Field>)
    requires Sorted(a) && Sorted(whole)
    requires forall f | f in a :: f in whole && Less(f.key, bound)
    requires b <= whole && |b| < |whole| && whole[|b|].key == bound
    ensures |a| <= |b|
  {
    if a != [] {
      var last := |a| - 1;
      var k :| 0 <= k < |whole| && whole[k] == a[last];
      LessTotal(a[last].key, bound);
      assert k < |b|;
      AllBelow(a[..last], b[..k], a[last].key, whole);
    }
  }

  lemma {:induction false} SameMessageNormal(a: Value, b: Value)
    requires IsMessage(a) && IsMessage(b)
    requires SameMessage(a, b)
    ensures Normal(a) == Normal(b)
    decreases a
  {
    match (a, b)
    case (Arr(x), Arr(y)) =>
      forall i | 0 <= i < |x| ensures Normal(x[i]) == Normal(y[i]) {
        SameMessageNormal(x[i], y[i]);
      }
      assert NormalItems(x) == NormalItems(y);
    case (Obj(x), Obj(y)) =>
      var nx, ny := NormalFields(x), NormalFields(y);
      forall i | 0 <= i < |x| ensures nx[i] in ny {
        var j :| 0 <= j < |y| && x[i].key == y[j].key && SameMessage(x[i].val, y[j].val);
        SameMessageNormal(x[i].val, y[j].val);
        assert nx[i] == ny[j];
      }
      SortSorted(nx);
      SortSorted(ny);
      SortContents(nx);
      SortContents(ny);
      forall f | f in Sort(nx) ensures f in Sort(ny) {
        MemberOfMultiset(Sort(nx), nx, f);
        MemberOfMultiset(Sort(ny), ny, f);
      }
      assert |Sort(nx)| == |multiset(Sort(nx))| == |nx|;
      assert |Sort(ny)| == |multiset(Sort(ny))| == |ny|;
      SortedUnique(Sort(nx), Sort(ny));
    case _ =>
  }

  // ---------------------------------------------------------------------------------------------
  // Reading fields
  // ---------------------------------------------------------------------------------------------

  lemma {:induction false} FindAt(fields: seq<Field>, i: nat)
    requires i < |fields| && Distinct(fields)
    ensures Find(fields, fields[i].key) == Some(fields[i].val)
  {
    if i > 0 {
      FindAt(fields[1..], i - 1);
    }
  }

  lemma {:induction false} FindNone(fields: seq<Field>, key: string)
    requires forall i | 0 <= i < |fields| :: fields[i].key != key
    ensures Find(fields, key) == None
  {
    if fields != [] {
      FindNone(fields[1..], key);
    }
  }

  lemma {:induction false} FindSome(fields: seq<Field>, key: string) returns (i: nat)
    requires Find(fields, key).Some?
    ensures i < |fields| && fields[i].key == key && Find(fields, key) == Some(fields[i].val)
  {
    if fields[0].key == key {
      i := 0;
    } else {
      var j := FindSome(fields[1..], key);
      i := j + 1;
    }
  }

  function NormalOption(v: Option<Value>): Option<Value> {
    if v.Some? then Some(Normal(v.value)) else None
  }

  /** Normalising a dictionary normalises what each key leads to, and nothing else. */
  lemma GetOfNormal(message: Value, key: string)
    requires IsMessage(message) && message.Obj?
    ensures Normal(message).Get(key) == NormalOption(message.Get(key))
  {
    var fields := message.fields;
    var nf := NormalFields(fields);
    var sorted := Sort(nf);
    SortContents(nf);
    SortSorted(nf);
    SortedDistinct(sorted);
    if message.Get(key).Some? {
      var i := FindSome(fields, key);
      MemberOfMultiset(sorted, nf, nf[i]);
      var j :| 0 <= j < |sorted| && sorted[j] == nf[i];
      FindAt(sorted, j);
    } else if Normal(message).Get(key).Some? {
      var j := FindSome(sorted, key);
      MemberOfMultiset(sorted, nf, sorted[j]);
      var i :| 0 <= i < |nf| && nf[i] == sorted[j];
      FindAt(fields, i);
    }
  }

  /** A sorted rearrangement of the fields is what sorting gives. */
  lemma SortIs(fields: seq<Field>, sorted: seq<Field>)
    requires Distinct(fields) && Sorted(sorted)
    requires |fields| == |sorted| && forall i | 0 <= i < |fields| :: fields[i] in sorted
    ensures Sort(fields) == sorted
  {
    SortSorted(fields);
    SortContents(fields);
    assert |Sort(fields)| == |multiset(Sort(fields))| == |fields|;
    forall f | f in Sort(fields) ensures f in sorted {
      MemberOfMultiset(Sort(fields), fields, f);
    }
    SortedUnique(Sort(fields), sorted);
  }

  /** Neighbours in order suffice. */
  lemma {:induction false} SortedFromNeighbours(fields: seq<Field>)
    requires forall i | 0 <= i < |fields| - 1 :: Less(fields[i].key, fields[i + 1].key)
    ensures Sorted(fields)
  {
    if |fields| > 1 {
      var init, last := fields[..|fields| - 1], |fields| - 1;
      SortedFromNeighbours(init);
      forall i | 0 <= i < last ensures Less(fields[i].key, fields[last].key) {
        if i < last - 1 {
          assert Less(init[i].key, init[last - 1].key);
          assert Less(fields[last - 1].key, fields[last - 1 + 1].key);
          LessTransitive(fields[i].key, fields[last - 1].key, fields[last].key);
        }
      }
      assert forall i | 0 <= i < last :: fields[i] == init[i];
    }
  }

  /** Two strings compare as the characters at the first place where they differ. */
  lemma {:induction false} LessAt(a: string, b: string, k: nat)
    requires k < |a| && k < |b| && a[..k] == b[..k] && a[k] < b[k]
    ensures Less(a, b)
  {
    if k > 0 {
      assert a[0] == a[..k][0] == b[..k][0] == b[0];
      assert a[1..][..k - 1] == a[..k][1..] == b[..k][1..] == b[1..][..k - 1];
      LessAt(a[1..], b[1..], k - 1);
    }
  }
}
