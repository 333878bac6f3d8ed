/** JSON values as JavaScript holds them: objects keep their keys in order, and `JSON.stringify` prints
    them in that order. A number is represented by the decimal text JavaScript prints for it. */
module Json {
  import opened Wrappers

  predicate NumberChar(c: char) {
    '0' <= c <= '9' || c in "+-.e"
  }

  type Numeral = s: string | |s| > 0 && forall c :: c in s ==> NumberChar(c) witness "0"

  datatype Value =
    | Null
    | Bool(b: bool)
    | Num(text: Numeral)
    | Str(s: string)
    | Arr(items: seq<Value>)
    | Obj(fields: seq<Field>)

  datatype Field = Field(key: string, value: Value)

  // ---------- records: ordered key/value lists ----------

  /** `record[key]` */
  function Get(fields: seq<Field>, key: string): (r: Option<Value>)
    ensures r.None? <==> forall f :: f in fields ==> f.key != key
    ensures r.Some? ==> Field(key, r.value) in fields
  {
    if |fields| == 0 then None
    else if fields[0].key == key then Some(fields[0].value)
    else Get(fields[1..], key)
  }

  /** `key in record` */
  predicate Has(fields: seq<Field>, key: string) {
    Get(fields, key).Some?
  }

  /** `record[key] = value`: an existing key keeps its place, a new one goes last. */
  function Put(fields: seq<Field>, key: string, value: Value): (r: seq<Field>)
    ensures Get(r, key) == Some(value)
    ensures Has(fields, key) ==> |r| == |fields|
    ensures !Has(fields, key) ==> r == fields + [Field(key, value)]
  {
    if |fields| == 0 then [Field(key, value)]
    else if fields[0].key == key then [Field(key, value)] + fields[1..]
    else
      var rest := Put(fields[1..], key, value);
      assert !Has(fields, key) ==> [fields[0]] + (fields[1..] + [Field(key, value)]) == fields + [Field(key, value)];
      [fields[0]] + rest
  }

  /** `const { [key]: _, ...rest } = record` */
  function Without(fields: seq<Field>, key: string): (r: seq<Field>)
    ensures !Has(r, key)
  {
    if |fields| == 0 then []
    else if fields[0].key == key then Without(fields[1..], key)
    else [fields[0]] + Without(fields[1..], key)
  }

  lemma {:induction false} PutThenGetOther(fields: seq<Field>, key: string, value: Value, other: string)
    requires other != key
    ensures Get(Put(fields, key, value), other) == Get(fields, other)
  {
    if |fields| != 0 && fields[0].key != key {
      PutThenGetOther(fields[1..], key, value, other);
    }
  }

  lemma {:induction false} PutThenWithout(fields: seq<Field>, key: string, value: Value)
    ensures Without(Put(fields, key, value), key) == Without(fields, key)
  {
    if |fields| != 0 && fields[0].key != key {
      PutThenWithout(fields[1..], key, value);
    }
  }

  lemma {:induction false} PutTwice(fields: seq<Field>, key: string, first: Value, second: Value)
    ensures Put(Put(fields, key, first), key, second) == Put(fields, key, second)
  {
    if |fields| != 0 && fields[0].key != key {
      PutTwice(fields[1..], key, first, second);
    }
  }

  lemma {:induction false} WithoutAbsent(fields: seq<Field>, key: string)
    requires !Has(fields, key)
    ensures Without(fields, key) == fields
  {
    if |fields| > 0 {
      assert fields == [fields[0]] + fields[1..] && fields[0] in fields;
      WithoutAbsent(fields[1..], key);
    }
  }

  lemma {:induction false} WithoutConcat(a: seq<Field>, b: seq<Field>, key: string)
    ensures Without(a + b, key) == Without(a, key) + Without(b, key)
  {
    if |a| > 0 {
      assert (a + b)[1..] == a[1..] + b && (a + b)[0] == a[0];
      WithoutConcat(a[1..], b, key);
    } else {
      assert a + b == b;
    }
  }

  /** Taking a key out leaves the other entries, in their order. */
  lemma WithoutMeaning(before: seq<Field>, f: Field, after: seq<Field>)
    requires !Has(before, f.key) && !Has(after, f.key)
    ensures Without(before + [f] + after, f.key) == before + after && Without(after, f.key) == after
  {
    WithoutAbsent(before, f.key);
    WithoutAbsent(after, f.key);
    WithoutBetween(before, f, after);
  }

  lemma WithoutBetween(before: seq<Field>, f: Field, after: seq<Field>)
    ensures Without(before + [f] + after, f.key) == Without(before, f.key) + Without(after, f.key)
  {
    hide Without, Get, Has;
    WithoutOne(f);
    var front := before + [f];
    WithoutConcat(before, [f], f.key);
    WithoutConcat(front, after, f.key);
    assert Without(before, f.key) + [] == Without(before, f.key);
  }

  lemma WithoutOne(f: Field)
    ensures Without([f], f.key) == []
  {
    assert [f][1..] == [];
  }

  // ---------- JSON.stringify ----------

  function HexDigit(n: nat): char
    requires n < 16
  {
    if n < 10 then '0' + n as char else 'a' + (n - 10) as char
  }

  /** One character inside a JSON string literal. */
  function Escape(c: char): (r: string)
    ensures |r| > 0
  {
    if c == '"' then "\\\""
    else if c == '\\' then "\\\\"
    else if c == 8 as char then "\\b"
    else if c == 9 as char then "\\t"
    else if c == 10 as char then "\\n"
    else if c == 12 as char then "\\f"
    else if c == 13 as char then "\\r"
    else if c < ' ' then "\\u00" + [HexDigit(c as nat / 16), HexDigit(c as nat % 16)]
    else [c]
  }

  function Quoted(s: string): (r: string)
    ensures |r| > 0
  {
    if |s| == 0 then "\"" else Escape(s[0]) + Quoted(s[1..])
  }

  function Stringify(v: Value): (r: string)
    decreases v
  {
    match v
    case Null => "null"
    case Bool(b) => if b then "true" else "false"
    case Num(text) => text
    case Str(s) => "\"" + Quoted(s)
    case Arr(items) => "[" + StringifyItems(items)
    case Obj(fields) => "{" + StringifyFields(fields)
  }

  function StringifyItems(items: seq<Value>): string
    decreases items
  {
    if |items| == 0 then "]"
    else if |items| == 1 then Stringify(items[0]) + "]"
    else Stringify(items[0]) + ("," + StringifyItems(items[1..]))
  }

  function StringifyFields(fields: seq<Field>): string
    decreases fields, 1
  {
    if |fields| == 0 then "}"
    else "\"" + (Quoted(fields[0].key) + (":" + (Stringify(fields[0].value) + StringifyRest(fields))))
  }

  function StringifyRest(fields: seq<Field>): string
    requires |fields| > 0
    decreases fields, 0
  {
    if |fields| == 1 then "}" else "," + StringifyFields(fields[1..])
  }

  /** What may follow a value inside a JSON text cannot continue a numeral. */
  predicate Delimited(rest: string) {
    |rest| > 0 ==> !NumberChar(rest[0])
  }

  lemma EscapeIsPrefixFree(c: char, d: char, x: string, y: string)
    requires Escape(c) + x == Escape(d) + y
    ensures c == d && x == y
  {
    var l, r := Escape(c) + x, Escape(d) + y;
    assert l[0] == Escape(c)[0] && r[0] == Escape(d)[0];
    if l[0] == '\\' {
      assert l[1] == Escape(c)[1] && r[1] == Escape(d)[1];
      if l[1] == 'u' {
        assert l[4] == Escape(c)[4] && r[4] == Escape(d)[4];
        assert l[5] == Escape(c)[5] && r[5] == Escape(d)[5];
      }
    }
    assert Escape(c) == Escape(d);
    assert x == l[|Escape(c)|..] && y == r[|Escape(d)|..];
  }

  lemma EscapeIsNotTheClosingQuote(c: char, x: string, y: string)
    ensures Escape(c) + x != "\"" + y
  {
    assert (Escape(c) + x)[0] == Escape(c)[0];
    assert ("\"" + y)[0] == '"';
  }

  lemma SplitAgrees(a: string, b: string, x: string, y: string)
    requires a + x == b + y
    ensures a == b ==> x == y
    ensures |a| < |b| ==> |x| > 0 && x[0] == b[|a|]
    ensures |a| == |b| ==> a == b
  {
    assert x == (a + x)[|a|..] && y == (b + y)[|b|..];
    assert a == (a + x)[..|a|] && b == (b + y)[..|b|];
    if |a| < |b| {
      assert x[0] == (a + x)[|a|];
    }
  }

  lemma Regroup(a: string, b: string, c: string)
    ensures (a + b) + c == a + (b + c)
  {
  }

  lemma {:induction false} QuotedIsPrefixFree(s: string, t: string, x: string, y: string)
    requires Quoted(s) + x == Quoted(t) + y
    ensures s == t && x == y
  {
    hide Escape;
    if |s| > 0 {
      Regroup(Escape(s[0]), Quoted(s[1..]), x);
    }
    if |t| > 0 {
      Regroup(Escape(t[0]), Quoted(t[1..]), y);
    }
    if |s| == 0 && |t| == 0 {
      SplitAgrees("\"", "\"", x, y);
    } else if |s| == 0 {
      EscapeIsNotTheClosingQuote(t[0], Quoted(t[1..]) + y, x);
    } else if |t| == 0 {
      EscapeIsNotTheClosingQuote(s[0], Quoted(s[1..]) + x, y);
    } else {
      EscapeIsPrefixFree(s[0], t[0], Quoted(s[1..]) + x, Quoted(t[1..]) + y);
      QuotedIsPrefixFree(s[1..], t[1..], x, y);
      assert s == [s[0]] + s[1..] && t == [t[0]] + t[1..];
    }
  }

  lemma NumeralsAreDelimited(a: Numeral, b: Numeral, x: string, y: string)
    requires Delimited(x) && Delimited(y)
    requires a + x == b + y
    ensures a == b && x == y
  {
    SplitAgrees(a, b, x, y);
    SplitAgrees(b, a, y, x);
    if |a| != |b| {
      assert false;
    }
  }

  datatype Kind = NullKind | TrueKind | FalseKind | NumKind | StrKind | ArrKind | ObjKind

  function KindOf(v: Value): Kind {
    match v
    case Null => NullKind
    case Bool(b) => if b then TrueKind else FalseKind
    case Num(_) => NumKind
    case Str(_) => StrKind
    case Arr(_) => ArrKind
    case Obj(_) => ObjKind
  }

  function KindFrom(c: char): Kind {
    if c == 'n' then NullKind
    else if c == 't' then TrueKind
    else if c == 'f' then FalseKind
    else if c == '"' then StrKind
    else if c == '[' then ArrKind
    else if c == '{' then ObjKind
    else NumKind
  }

  /** The first character tells the kinds of value apart, and never closes a list. */
  lemma Head(v: Value, x: string)
    ensures |Stringify(v)| > 0
    ensures (Stringify(v) + x)[0] == Stringify(v)[0]
    ensures KindFrom(Stringify(v)[0]) == KindOf(v)
    ensures Stringify(v)[0] != ']'
  {
    if v.Num? {
      assert v.text[0] in v.text;
    }
  }

  /** The text after the first item of an array. */
  function ItemsTail(items: seq<Value>): (r: string)
    requires |items| > 0
    ensures |r| > 0 && r[0] == if |items| == 1 then ']' else ','
  {
    if |items| == 1 then "]" else "," + StringifyItems(items[1..])
  }

  lemma ItemsUnfold(items: seq<Value>, x: string)
    requires |items| > 0
    ensures StringifyItems(items) + x == Stringify(items[0]) + (ItemsTail(items) + x)
    ensures Delimited(ItemsTail(items) + x)
  {
    Regroup(Stringify(items[0]), ItemsTail(items), x);
    assert (ItemsTail(items) + x)[0] == ItemsTail(items)[0];
  }

  /** The text after the opening quote of a non-empty record's first key. */
  function AfterKey(fields: seq<Field>, x: string): string
    requires |fields| > 0
  {
    Stringify(fields[0].value) + (StringifyRest(fields) + x)
  }

  lemma FieldsUnfold(fields: seq<Field>, x: string)
    requires |fields| > 0
    ensures StringifyFields(fields) + x == "\"" + (Quoted(fields[0].key) + (":" + AfterKey(fields, x)))
    ensures Delimited(StringifyRest(fields) + x)
  {
    var v, rest := Stringify(fields[0].value), StringifyRest(fields);
    Regroup("\"", Quoted(fields[0].key) + (":" + (v + rest)), x);
    Regroup(Quoted(fields[0].key), ":" + (v + rest), x);
    Regroup(":", v + rest, x);
    Regroup(v, rest, x);
    assert (rest + x)[0] == rest[0];
  }

  /** No JSON text, followed by a delimiter, starts another JSON text: printing loses nothing, the order
      of keys included. */
  lemma {:induction false} StringifyIsPrefixFree(a: Value, b: Value, x: string, y: string)
    requires Delimited(x) && Delimited(y)
    requires Stringify(a) + x == Stringify(b) + y
    ensures a == b && x == y
    decreases a, 0
  {
    Head(a, x);
    Head(b, y);
    assert KindOf(a) == KindOf(b);
    match a
    case Null => SplitAgrees(Stringify(a), Stringify(b), x, y);
    case Bool(v) => SplitAgrees(Stringify(a), Stringify(b), x, y);
    case Num(text) => NumeralsAreDelimited(text, b.text, x, y);
    case Str(s) =>
      Regroup("\"", Quoted(s), x);
      Regroup("\"", Quoted(b.s), y);
      SplitAgrees("\"", "\"", Quoted(s) + x, Quoted(b.s) + y);
      QuotedIsPrefixFree(s, b.s, x, y);
    case Arr(items) =>
      Regroup("[", StringifyItems(items), x);
      Regroup("[", StringifyItems(b.items), y);
      SplitAgrees("[", "[", StringifyItems(items) + x, StringifyItems(b.items) + y);
      ItemsArePrefixFree(items, b.items, x, y);
    case Obj(fields) =>
      Regroup("{", StringifyFields(fields), x);
      Regroup("{", StringifyFields(b.fields), y);
      SplitAgrees("{", "{", StringifyFields(fields) + x, StringifyFields(b.fields) + y);
      FieldsArePrefixFree(fields, b.fields, x, y);
  }

  lemma EmptyItems(b: seq<Value>, x: string, y: string)
    requires "]" + x == StringifyItems(b) + y
    ensures b == [] && x == y
  {
    if |b| > 0 {
      ItemsUnfold(b, y);
      Head(b[0], ItemsTail(b) + y);
      assert false;
    } else {
      SplitAgrees("]", "]", x, y);
    }
  }

  lemma {:induction false} ItemsArePrefixFree(a: seq<Value>, b: seq<Value>, x: string, y: string)
    requires StringifyItems(a) + x == StringifyItems(b) + y
    ensures a == b && x == y
    decreases a, 0
  {
    if |a| == 0 {
      EmptyItems(b, x, y);
    } else if |b| == 0 {
      EmptyItems(a, y, x);
    } else {
      ItemsUnfold(a, x);
      ItemsUnfold(b, y);
      StringifyIsPrefixFree(a[0], b[0], ItemsTail(a) + x, ItemsTail(b) + y);
      ItemsTailsArePrefixFree(a, b, x, y);
      assert a == [a[0]] + a[1..] && b == [b[0]] + b[1..];
    }
  }

  lemma {:induction false} ItemsTailsArePrefixFree(a: seq<Value>, b: seq<Value>, x: string, y: string)
    requires |a| > 0 && |b| > 0
    requires ItemsTail(a) + x == ItemsTail(b) + y
    ensures a[1..] == b[1..] && x == y
    decreases a[1..], 1
  {
    assert (ItemsTail(a) + x)[0] == ItemsTail(a)[0] && (ItemsTail(b) + y)[0] == ItemsTail(b)[0];
    if |a| == 1 {
      SplitAgrees("]", "]", x, y);
    } else {
      Regroup(",", StringifyItems(a[1..]), x);
      Regroup(",", StringifyItems(b[1..]), y);
      SplitAgrees(",", ",", StringifyItems(a[1..]) + x, StringifyItems(b[1..]) + y);
      ItemsArePrefixFree(a[1..], b[1..], x, y);
    }
  }

  lemma {:induction false} FieldsArePrefixFree(a: seq<Field>, b: seq<Field>, x: string, y: string)
    requires StringifyFields(a) + x == StringifyFields(b) + y
    ensures a == b && x == y
    decreases a, 0
  {
    assert (StringifyFields(a) + x)[0] == StringifyFields(a)[0];
    assert (StringifyFields(b) + y)[0] == StringifyFields(b)[0];
    if |a| == 0 {
      SplitAgrees("}", "}", x, y);
    } else {
      FieldsUnfold(a, x);
      FieldsUnfold(b, y);
      SplitAgrees("\"", "\"", Quoted(a[0].key) + (":" + AfterKey(a, x)), Quoted(b[0].key) + (":" + AfterKey(b, y)));
      QuotedIsPrefixFree(a[0].key, b[0].key, ":" + AfterKey(a, x), ":" + AfterKey(b, y));
      SplitAgrees(":", ":", AfterKey(a, x), AfterKey(b, y));
      StringifyIsPrefixFree(a[0].value, b[0].value, StringifyRest(a) + x, StringifyRest(b) + y);
      FieldsTailsArePrefixFree(a, b, x, y);
      assert a == [a[0]] + a[1..] && b == [b[0]] + b[1..];
    }
  }

  lemma {:induction false} FieldsTailsArePrefixFree(a: seq<Field>, b: seq<Field>, x: string, y: string)
    requires |a| > 0 && |b| > 0
    requires StringifyRest(a) + x == StringifyRest(b) + y
    ensures a[1..] == b[1..] && x == y
    decreases a[1..], 1
  {
    assert (StringifyRest(a) + x)[0] == StringifyRest(a)[0] && (StringifyRest(b) + y)[0] == StringifyRest(b)[0];
    if |a| == 1 {
      SplitAgrees("}", "}", x, y);
    } else {
      Regroup(",", StringifyFields(a[1..]), x);
      Regroup(",", StringifyFields(b[1..]), y);
      SplitAgrees(",", ",", StringifyFields(a[1..]) + x, StringifyFields(b[1..]) + y);
      FieldsArePrefixFree(a[1..], b[1..], x, y);
    }
  }

  /** Comparing two printed values compares the values. */
  lemma StringifyIsInjective(a: Value, b: Value)
    ensures Stringify(a) == Stringify(b) <==> a == b
  {
    if Stringify(a) == Stringify(b) {
      assert Stringify(a) + "" == Stringify(b) + "";
      StringifyIsPrefixFree(a, b, "", "");
    }
  }
}
