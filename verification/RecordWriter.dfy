/**
 The canonical JSON writer of flight/custody.c and the records it prints.

 A record is a list of fields in a fixed order. `Text` is its whole canonical text and `Parse` reads
 a text back; class `Writer` is the C cursor over a caller's buffer.
 */
module RecordWriter {
  import opened Codes
  import opened Decimals
  import opened IdOrder
  import opened Wrappers

  const MAX_SAFE: nat := 9007199254740991

  datatype Value = Str(s: string) | Num(n: nat) | Size(n: nat)
  datatype Field = Field(key: string, value: Value)

  // ---- The text of a record --------------------------------------------------------------------

  /** Printable ASCII without the quote and the backslash. */
  predicate SafeChar(c: char) {
    ' ' <= c <= '~' && c != '\"' && c != '\\'
  }

  predicate Safe(s: string) {
    forall i :: 0 <= i < |s| ==> SafeChar(s[i])
  }

  /** The object `ck_manifest` prints under "meta". */
  function SizeText(n: nat): string {
    "{\"chunkSize\":" + Decimal(n) + "}"
  }

  function ValueText(v: Value): string {
    match v
    case Str(s) => "\"" + s + "\""
    case Num(n) => Decimal(n)
    case Size(n) => SizeText(n)
  }

  function FieldText(f: Field): string {
    "\"" + f.key + "\":" + ValueText(f.value)
  }

  function FieldsText(fs: seq<Field>): string {
    if fs == [] then ""
    else if |fs| == 1 then FieldText(fs[0])
    else FieldText(fs[0]) + "," + FieldsText(fs[1..])
  }

  function Text(fs: seq<Field>): string {
    "{" + FieldsText(fs) + "}"
  }

  /** What the writer accepts: strings that need no escaping, numbers a double can hold. */
  predicate Writable(v: Value) {
    match v
    case Str(s) => Safe(s)
    case Num(n) => n <= MAX_SAFE
    case Size(n) => true
  }

  predicate ValuesWritable(fs: seq<Field>) {
    forall i :: 0 <= i < |fs| ==> Writable(fs[i].value)
  }

  predicate AllWritable(fs: seq<Field>) {
    ValuesWritable(fs) && forall i :: 0 <= i < |fs| ==> Safe(fs[i].key)
  }

  // ---- Reading a text back ------------------------------------------------------------------------

  /** Everything before the first occurrence of c, or the whole string. */
  function UpTo(s: string, c: char): (k: nat)
    ensures k <= |s|
    ensures k < |s| ==> s[k] == c
  {
    if s == [] || s[0] == c then 0 else 1 + UpTo(s[1..], c)
  }

  function DigitRun(s: string): (k: nat)
    ensures k <= |s| && forall i :: 0 <= i < k ==> IsDigit(s[i])
  {
    if s == [] || !IsDigit(s[0]) then 0 else 1 + DigitRun(s[1..])
  }

  datatype ReadValue = ReadValue(value: Value, rest: string)

  const SIZE_OPEN := "{\"chunkSize\":"

  function ParseValue(s: string): (r: Option<ReadValue>)
    ensures r.Some? ==> |r.value.rest| < |s|
  {
    if s == [] then None
    else if s[0] == '\"' then
      var k := UpTo(s[1..], '\"');
      if k == |s[1..]| then None else Some(ReadValue(Str(s[1..][..k]), s[1..][k + 1..]))
    else if IsDigit(s[0]) then
      var k := DigitRun(s);
      Some(ReadValue(Num(NumberOf(s[..k])), s[k..]))
    else if SIZE_OPEN <= s then
      var t := s[|SIZE_OPEN|..];
      var k := DigitRun(t);
      if k == 0 || k == |t| || t[k] != '}' then None
      else Some(ReadValue(Size(NumberOf(t[..k])), t[k + 1..]))
    else None
  }

  datatype ReadField = ReadField(field: Field, rest: string)

  function ParseField(s: string): (r: Option<ReadField>)
    ensures r.Some? ==> |r.value.rest| < |s|
  {
    if s == [] || s[0] != '\"' then None
    else
      var k := UpTo(s[1..], '\"');
      if !("\":" <= s[1..][k..]) then None
      else
        match ParseValue(s[1..][k + 2..])
        case None => None
        case Some(v) => Some(ReadField(Field(s[1..][..k], v.value), v.rest))
  }

  /** Fields separated by commas, and the closing brace with nothing after it. */
  function ParseFields(s: string): Option<seq<Field>>
    decreases |s|
  {
    match ParseField(s)
    case None => None
    case Some(f) =>
      if f.rest == "}" then Some([f.field])
      else if f.rest != [] && f.rest[0] == ',' then
        match ParseFields(f.rest[1..])
        case None => None
        case Some(more) => Some([f.field] + more)
      else None
  }

  function Parse(s: string): Option<seq<Field>> {
    if s == [] || s[0] != '{' then None
    else if s == "{}" then Some([])
    else ParseFields(s[1..])
  }

  // ---- Every text reads back --------------------------------------------------------------------

  lemma {:induction false} UpToSafe(s: string, t: string)
    requires Safe(s)
    ensures UpTo(s + ['\"'] + t, '\"') == |s|
  {
    if s != [] {
      assert SafeChar(s[0]);
      UpToSafe(s[1..], t);
      assert (s + ['\"'] + t)[1..] == s[1..] + ['\"'] + t;
    }
  }

  lemma {:induction false} DigitRunOf(s: string, t: string)
    requires forall i :: 0 <= i < |s| ==> IsDigit(s[i])
    requires t != [] && !IsDigit(t[0])
    ensures DigitRun(s + t) == |s|
  {
    if s == [] {
      assert s + t == t;
    } else {
      DigitRunOf(s[1..], t);
      assert (s + t)[1..] == s[1..] + t;
    }
  }

  lemma StringReadsBack(x: string, t: string)
    requires Safe(x)
    ensures ParseValue("\"" + x + "\"" + t) == Some(ReadValue(Str(x), t))
  {
    hide UpTo, NumberOf, DigitRun;
    var s := "\"" + x + "\"" + t;
    assert s[1..] == x + ['\"'] + t;
    UpToSafe(x, t);
    assert s[1..][..|x|] == x && s[1..][|x| + 1..] == t;
  }

  lemma NumberReadsBack(n: nat, t: string)
    requires t != [] && !IsDigit(t[0])
    ensures ParseValue(Decimal(n) + t) == Some(ReadValue(Num(n), t))
  {
    hide Decimal, NumberOf, DigitRun, UpTo;
    var s := Decimal(n) + t;
    DigitRunOf(Decimal(n), t);
    NumberOfDecimal(n);
    assert s[0] == Decimal(n)[0];
    assert s[..|Decimal(n)|] == Decimal(n) && s[|Decimal(n)|..] == t;
  }

  lemma SizeReadsBack(n: nat, t: string)
    ensures ParseValue(SizeText(n) + t) == Some(ReadValue(Size(n), t))
  {
    hide Decimal, NumberOf, DigitRun, UpTo;
    var s := SizeText(n) + t;
    var u := Decimal(n) + ("}" + t);
    assert s == SIZE_OPEN + u;
    assert s[|SIZE_OPEN|..] == u;
    DigitRunOf(Decimal(n), "}" + t);
    NumberOfDecimal(n);
    assert u[..|Decimal(n)|] == Decimal(n) && u[|Decimal(n)| + 1..] == t;
  }

  lemma ValueReadsBack(v: Value, t: string)
    requires Writable(v) && t != [] && !IsDigit(t[0])
    ensures ParseValue(ValueText(v) + t) == Some(ReadValue(v, t))
  {
    hide ParseValue, Decimal;
    match v
    case Str(x) => StringReadsBack(x, t);
    case Num(n) => NumberReadsBack(n, t);
    case Size(n) => SizeReadsBack(n, t);
  }

  lemma FieldReadsBack(f: Field, t: string)
    requires Safe(f.key) && Writable(f.value) && t != [] && !IsDigit(t[0])
    ensures ParseField(FieldText(f) + t) == Some(ReadField(f, t))
  {
    hide ParseValue, ValueText, UpTo;
    var s := FieldText(f) + t;
    var tail := ValueText(f.value) + t;
    assert s[1..] == f.key + ['\"'] + ([':'] + tail);
    UpToSafe(f.key, [':'] + tail);
    assert s[1..][|f.key|..] == "\":" + tail;
    assert s[1..][|f.key| + 2..] == tail;
    assert s[1..][..|f.key|] == f.key;
    ValueReadsBack(f.value, t);
  }

  lemma {:induction false} FieldsReadBack(fs: seq<Field>)
    requires fs != [] && AllWritable(fs)
    ensures ParseFields(FieldsText(fs) + "}") == Some(fs)
    decreases |fs|
  {
    hide ParseField, FieldText;
    var s := FieldsText(fs) + "}";
    if |fs| == 1 {
      FieldReadsBack(fs[0], "}");
      assert fs == [fs[0]];
    } else {
      var more := FieldsText(fs[1..]) + "}";
      assert s == FieldText(fs[0]) + ("," + more);
      FieldReadsBack(fs[0], "," + more);
      assert ("," + more)[1..] == more;
      FieldsReadBack(fs[1..]);
      assert [fs[0]] + fs[1..] == fs;
    }
  }

  lemma {:induction false} FieldsTextStarts(fs: seq<Field>)
    requires fs != []
    ensures |FieldsText(fs)| > 0 && FieldsText(fs)[0] == '\"'
  {
  }

  /** A parser recovers every field of a record's text. */
  lemma TextReadsBack(fs: seq<Field>)
    requires AllWritable(fs)
    ensures Parse(Text(fs)) == Some(fs)
  {
    hide ParseFields, FieldsText;
    if fs == [] {
      assert FieldsText([]) == "" by { NoFieldsText(); }
    } else {
      FieldsTextStarts(fs);
      assert Text(fs)[1..] == FieldsText(fs) + "}";
      assert Text(fs)[1] == '\"';
      FieldsReadBack(fs);
    }
  }

  lemma NoFieldsText()
    ensures FieldsText([]) == ""
  {
  }

  /** So no two records share a text. */
  lemma TextIsUnambiguous(a: seq<Field>, b: seq<Field>)
    requires AllWritable(a) && AllWritable(b) && Text(a) == Text(b)
    ensures a == b
  {
    hide Parse, Text;
    TextReadsBack(a);
    TextReadsBack(b);
  }

  // ---- Canonical JSON ------------------------------------------------------------------------------

  /** How a string is written in JSON (section 7 of RFC 8259): quote and backslash behind a backslash, control
      characters by number. */
  function Escaped(s: string): string {
    if s == [] then [] else EscapedChar(s[0]) + Escaped(s[1..])
  }

  predicate Plain(c: char) {
    c >= ' ' && c != '\"' && c != '\\'
  }

  function EscapedChar(c: char): (e: string)
    ensures if Plain(c) then e == [c] else |e| > 1
  {
    if c == '\"' || c == '\\' then ['\\', c]
    else if c < ' ' then "\\u00" + [Digit(c as int / 16), HexDigit(c as int % 16)]
    else [c]
  }

  function HexDigit(d: nat): char
    requires d < 16
  {
    if d < 10 then Digit(d) else ('a' as int + d - 10) as char
  }

  lemma {:induction false} EscapedLength(s: string)
    ensures |Escaped(s)| >= |s|
    ensures |Escaped(s)| == |s| <==> forall i :: 0 <= i < |s| ==> Plain(s[i])
  {
    hide EscapedChar, Plain;
    if s != [] {
      EscapedLength(s[1..]);
      assert (forall i :: 0 <= i < |s| ==> Plain(s[i])) <==> Plain(s[0]) && forall i :: 0 <= i < |s[1..]| ==> Plain(s[1..][i]) by {
        assert forall i :: 0 < i < |s| ==> s[i] == s[1..][i - 1];
      }
    }
  }

  /** The writer takes exactly the strings of printable ASCII that JSON writes as they are. */
  lemma {:induction false} SafeIffUnescaped(s: string)
    ensures Safe(s) <==> Escaped(s) == s && forall i :: 0 <= i < |s| ==> s[i] <= '~'
  {
    EscapedLength(s);
    if Safe(s) { UnescapedIsItself(s); }
    if Escaped(s) == s { assert forall i :: 0 <= i < |s| ==> Plain(s[i]); }
  }

  lemma {:induction false} UnescapedIsItself(s: string)
    requires Safe(s)
    ensures Escaped(s) == s
  {
    if s != [] {
      assert SafeChar(s[0]);
      UnescapedIsItself(s[1..]);
    }
  }

  /** Keys in ascending order, so each once (section 3.2.3 of RFC 8785). */
  ghost predicate KeysAscend(fs: seq<Field>) {
    forall i, j :: 0 <= i < j < |fs| ==> Below(fs[i].key, fs[j].key)
  }

  /** The value under a key. */
  function Lookup(fs: seq<Field>, key: string): Option<Value> {
    if fs == [] then None else if fs[0].key == key then Some(fs[0].value) else Lookup(fs[1..], key)
  }

  lemma {:induction false} LookupAt(fs: seq<Field>, i: nat)
    requires KeysAscend(fs) && i < |fs|
    ensures Lookup(fs, fs[i].key) == Some(fs[i].value)
  {
    if i > 0 {
      BelowIsTotal(fs[0].key, fs[i].key);
      LookupAt(fs[1..], i - 1);
    }
  }

  lemma {:induction false} AscendFrom(fs: seq<Field>, f: Field)
    requires KeysAscend(fs) && (fs != [] ==> Below(f.key, fs[0].key))
    ensures KeysAscend([f] + fs)
  {
    var all := [f] + fs;
    forall i, j | 0 <= i < j < |all| ensures Below(all[i].key, all[j].key) {
      if i == 0 && j > 1 { BelowIsTransitive(f.key, fs[0].key, fs[j - 1].key); }
    }
  }

  /** Adjacent keys in order suffice. */
  lemma {:induction false} AscendByPairs(fs: seq<Field>)
    requires forall i :: 0 <= i < |fs| - 1 ==> Below(fs[i].key, fs[i + 1].key)
    ensures KeysAscend(fs)
  {
    hide Below;
    if fs != [] {
      AscendByPairs(fs[1..]);
      AscendFrom(fs[1..], fs[0]);
      assert fs == [fs[0]] + fs[1..];
    }
  }

  /** The fields under none of these keys. */
  function Without(fs: seq<Field>, keys: set<string>): seq<Field> {
    if fs == [] then [] else (if fs[0].key in keys then [] else [fs[0]]) + Without(fs[1..], keys)
  }

  lemma {:induction false} WithoutBoth(a: seq<Field>, b: seq<Field>, keys: set<string>)
    ensures Without(a + b, keys) == Without(a, keys) + Without(b, keys)
  {
    if a == [] {
      assert a + b == b;
    } else {
      WithoutBoth(a[1..], b, keys);
      assert (a + b)[0] == a[0] && (a + b)[1..] == a[1..] + b;
      var first := if a[0].key in keys then [] else [a[0]];
      assert first + (Without(a[1..], keys) + Without(b, keys)) == (first + Without(a[1..], keys)) + Without(b, keys);
    }
  }

  lemma {:induction false} WithoutNone(fs: seq<Field>, keys: set<string>)
    requires forall i :: 0 <= i < |fs| ==> fs[i].key !in keys
    ensures Without(fs, keys) == fs
  {
    if fs != [] {
      WithoutNone(fs[1..], keys);
      assert fs == [fs[0]] + fs[1..];
    }
  }

  lemma {:induction false} WithoutAll(fs: seq<Field>, keys: set<string>)
    requires forall i :: 0 <= i < |fs| ==> fs[i].key in keys
    ensures Without(fs, keys) == []
  {
    if fs != [] { WithoutAll(fs[1..], keys); }
  }

  lemma WithoutAround(before: seq<Field>, gone: seq<Field>, after: seq<Field>, keys: set<string>)
    requires forall i :: 0 <= i < |before| ==> before[i].key !in keys
    requires forall i :: 0 <= i < |gone| ==> gone[i].key in keys
    ensures Without(before + (gone + after), keys) == before + Without(after, keys)
  {
    hide Without;
    WithoutNone(before, keys);
    WithoutAll(gone, keys);
    WithoutBoth(before, gone + after, keys);
    WithoutBoth(gone, after, keys);
    assert [] + Without(after, keys) == Without(after, keys);
  }

  /** A record whose field k, and whose fields m up to n, are those dropped. */
  lemma WithoutSome(fs: seq<Field>, k: nat, m: nat, n: nat, keys: set<string>)
    requires KeysAscend(fs) && k < m < n <= |fs|
    requires forall x :: x in keys <==> x == fs[k].key || exists i :: m <= i < n && x == fs[i].key
    ensures Without(fs, keys) == fs[..k] + (fs[k + 1..m] + fs[n..])
  {
    hide Without, Below;
    forall i | 0 <= i < |fs| ensures fs[i].key in keys <==> i == k || m <= i < n {
      if i != k { KeysDiffer(fs, i, k); }
      forall j | m <= j < n && j != i ensures fs[i].key != fs[j].key { KeysDiffer(fs, i, j); }
    }
    hide KeysAscend;
    var a, b, c, d, e := fs[..k], fs[k..k + 1], fs[k + 1..m], fs[m..n], fs[n..];
    assert fs == a + (b + (c + (d + e)));
    WithoutAround(a, b, c + (d + e), keys);
    WithoutAround(c, d, e, keys);
    WithoutNone(e, keys);
  }

  lemma KeysDiffer(fs: seq<Field>, i: nat, j: nat)
    requires KeysAscend(fs) && i < |fs| && j < |fs| && i != j
    ensures fs[i].key != fs[j].key
  {
    BelowIsTotal(fs[i].key, fs[j].key);
  }

  lemma {:induction false} BelowAt(a: string, b: string, k: nat)
    requires k <= |a| && k < |b| && a[..k] == b[..k] && (k < |a| ==> a[k] < b[k])
    ensures Below(a, b)
  {
    if k > 0 {
      assert a[0] == a[..k][0] == b[..k][0] == b[0];
      assert a[1..][..k - 1] == a[..k][1..] && b[1..][..k - 1] == b[..k][1..];
      BelowAt(a[1..], b[1..], k - 1);
    }
  }

  // ---- The writer --------------------------------------------------------------------------------

  /** What is in the buffer before its terminating NUL, and the error so far. */
  datatype Out = Out(text: string, err: int)

  function PutOut(cap: nat, w: Out, s: string): Out {
    if w.err != 0 then w
    else if |w.text| + |s| + 1 > cap then w.(err := E_SPACE)
    else w.(text := w.text + s)
  }

  function FieldOut(cap: nat, w: Out, f: Field, first: bool): Out {
    match f.value
    case Str(v) =>
      if !Safe(v) then w.(err := E_STRING)
      else
        var open := PutOut(cap, PutOut(cap, w, if first then "\"" else ",\""), f.key);
        PutOut(cap, PutOut(cap, PutOut(cap, open, "\":\""), v), "\"")
    case Num(n) =>
      if n > MAX_SAFE then w.(err := E_NUMBER)
      else
        var open := PutOut(cap, PutOut(cap, w, if first then "\"" else ",\""), f.key);
        PutOut(cap, PutOut(cap, open, "\":"), Decimal(n))
    case Size(n) =>
      PutOut(cap, PutOut(cap, w, (if first then "\"" else ",\"") + f.key + "\":"), SizeText(n))
  }

  /** The first n fields written one after another. */
  function FieldsOut(cap: nat, w: Out, fs: seq<Field>, n: nat): Out
    requires n <= |fs|
  {
    if n == 0 then w else FieldOut(cap, FieldsOut(cap, w, fs, n - 1), fs[n - 1], n == 1)
  }

  /** A record written into an empty buffer. */
  function RecordOut(cap: nat, fs: seq<Field>): Out {
    PutOut(cap, FieldsOut(cap, PutOut(cap, Out("", 0), "{"), fs, |fs|), "}")
  }

  /** An error never clears, and an error-free step appended exactly its text. */
  ghost predicate Appended(cap: nat, w: Out, after: Out, s: string, ok: bool) {
    && (w.err != 0 ==> after.err != 0)
    && (w.err == 0 && |w.text| < cap ==>
          (after.err == 0 <==> ok && |w.text| + |s| < cap) && (after.err == 0 ==> after.text == w.text + s))
  }

  lemma AppendedPut(cap: nat, w: Out, s: string)
    ensures Appended(cap, w, PutOut(cap, w, s), s, true)
  {
  }

  lemma AppendedTwice(cap: nat, w: Out, s: string, ok: bool, x: Out, t: string, ok2: bool, y: Out)
    requires Appended(cap, w, x, s, ok) && Appended(cap, x, y, t, ok2)
    ensures Appended(cap, w, y, s + t, ok && ok2)
  {
    assert (w.text + s) + t == w.text + (s + t);
  }

  lemma AppendedThen(cap: nat, w: Out, s: string, x: Out, t: string)
    requires Appended(cap, w, x, s, true)
    ensures Appended(cap, w, PutOut(cap, x, t), s + t, true)
  {
    hide Appended, PutOut;
    AppendedPut(cap, x, t);
    AppendedTwice(cap, w, s, true, x, t, true, PutOut(cap, x, t));
  }

  function Separator(first: bool): string {
    if first then "" else ","
  }

  lemma AppendedField(cap: nat, w: Out, f: Field, first: bool)
    ensures Appended(cap, w, FieldOut(cap, w, f, first), Separator(first) + FieldText(f), Writable(f.value))
  {
    if Writable(f.value) {
      AppendedWritable(cap, w, f, first);
    }
  }

  lemma AppendedWritable(cap: nat, w: Out, f: Field, first: bool)
    requires Writable(f.value)
    ensures Appended(cap, w, FieldOut(cap, w, f, first), Separator(first) + FieldText(f), true)
  {
    hide Decimal, SizeText, PutOut, Appended, Safe;
    var quote := if first then "\"" else ",\"";
    var a := PutOut(cap, w, quote);
    AppendedPut(cap, w, quote);
    AppendedThen(cap, w, quote, a, f.key);
    var b := PutOut(cap, a, f.key);
    match f.value
    case Str(v) =>
      AppendedThen(cap, w, quote + f.key, b, "\":\"");
      var c := PutOut(cap, b, "\":\"");
      AppendedThen(cap, w, quote + f.key + "\":\"", c, v);
      AppendedThen(cap, w, quote + f.key + "\":\"" + v, PutOut(cap, c, v), "\"");
      assert Separator(first) + FieldText(f) == quote + f.key + "\":\"" + v + "\"";
    case Num(n) =>
      AppendedThen(cap, w, quote + f.key, b, "\":");
      AppendedThen(cap, w, quote + f.key + "\":", PutOut(cap, b, "\":"), Decimal(n));
      assert Separator(first) + FieldText(f) == quote + f.key + "\":" + Decimal(n);
    case Size(n) =>
      var open := quote + f.key + "\":";
      AppendedPut(cap, w, open);
      AppendedThen(cap, w, open, PutOut(cap, w, open), SizeText(n));
      assert Separator(first) + FieldText(f) == open + SizeText(n);
  }

  lemma {:induction false} FieldsTextLast(fs: seq<Field>, f: Field)
    requires fs != []
    ensures FieldsText(fs + [f]) == FieldsText(fs) + "," + FieldText(f)
    decreases |fs|
  {
    hide FieldText;
    assert (fs + [f])[1..] == fs[1..] + [f];
    if |fs| > 1 {
      FieldsTextLast(fs[1..], f);
    }
  }

  lemma {:induction false} AppendedFields(cap: nat, w: Out, fs: seq<Field>, n: nat)
    requires 1 <= n <= |fs|
    ensures Appended(cap, w, FieldsOut(cap, w, fs, n), FieldsText(fs[..n]), ValuesWritable(fs[..n]))
  {
    hide FieldOut, FieldText, Writable, Appended;
    var f := fs[n - 1];
    var x := FieldsOut(cap, w, fs, n - 1);
    AppendedField(cap, x, f, n == 1);
    assert fs[..n] == fs[..n - 1] + [f];
    assert ValuesWritable(fs[..n]) == (ValuesWritable(fs[..n - 1]) && Writable(f.value));
    if n == 1 {
      assert "" + FieldText(f) == FieldText(f) == FieldsText(fs[..1]);
    } else {
      AppendedFields(cap, w, fs, n - 1);
      FieldsTextLast(fs[..n - 1], f);
      assert FieldsText(fs[..n - 1]) + ("," + FieldText(f)) == FieldsText(fs[..n]);
      AppendedTwice(cap, w, FieldsText(fs[..n - 1]), ValuesWritable(fs[..n - 1]), x,
                    "," + FieldText(f), Writable(f.value), FieldsOut(cap, w, fs, n));
    }
  }

  /** Writing a record succeeds exactly when every value is acceptable and the whole text and its
      NUL fit the buffer, and then the buffer holds the whole text: never a truncated prefix. */
  lemma RecordOutIsWhole(cap: nat, fs: seq<Field>)
    requires fs != []
    ensures var o := RecordOut(cap, fs);
            && (o.err == 0 <==> ValuesWritable(fs) && |Text(fs)| < cap)
            && (o.err == 0 ==> o.text == Text(fs))
  {
    hide FieldsOut, FieldsText, ValuesWritable;
    var a := PutOut(cap, Out("", 0), "{");
    AppendedFields(cap, a, fs, |fs|);
    assert fs[..|fs|] == fs;
    assert "{" + FieldsText(fs) + "}" == Text(fs);
    assert ("" + "{") + FieldsText(fs) == "{" + FieldsText(fs);
    if a.err != 0 {
      assert cap < 2;
    }
  }

  /** What the last value that the writer refuses is refused for, or 0. */
  function LastRefusal(fs: seq<Field>): int {
    if fs == [] then 0
    else
      match fs[|fs| - 1].value
      case Str(s) => if Safe(s) then LastRefusal(fs[..|fs| - 1]) else E_STRING
      case Num(n) => if n <= MAX_SAFE then LastRefusal(fs[..|fs| - 1]) else E_NUMBER
      case Size(_) => LastRefusal(fs[..|fs| - 1])
  }

  /** The code a record ends with: a refused value's, before want of space. */
  function ErrorOf(cap: nat, fs: seq<Field>): int {
    if LastRefusal(fs) != 0 then LastRefusal(fs) else if |Text(fs)| < cap then 0 else E_SPACE
  }

  lemma {:induction false} NoRefusalIff(fs: seq<Field>)
    ensures LastRefusal(fs) == 0 <==> ValuesWritable(fs)
    ensures LastRefusal(fs) in {0, E_STRING, E_NUMBER}
    decreases |fs|
  {
    if fs != [] {
      var f := fs[|fs| - 1];
      NoRefusalIff(fs[..|fs| - 1]);
      assert fs == fs[..|fs| - 1] + [f];
      assert ValuesWritable(fs) <==> ValuesWritable(fs[..|fs| - 1]) && Writable(f.value);
    }
  }

  lemma FieldError(cap: nat, w: Out, f: Field, first: bool)
    ensures var o := FieldOut(cap, w, f, first);
            o.err == match f.value
                     case Str(s) => if Safe(s) then o.err else E_STRING
                     case Num(n) => if n <= MAX_SAFE then o.err else E_NUMBER
                     case Size(_) => o.err
    ensures Writable(f.value) && w.err != 0 ==> FieldOut(cap, w, f, first).err == w.err
    ensures Writable(f.value) && w.err == 0 ==> FieldOut(cap, w, f, first).err in {0, E_SPACE}
  {
    hide Safe, Decimal, SizeText;
  }

  lemma {:induction false} FieldsError(cap: nat, w: Out, fs: seq<Field>, n: nat)
    requires n <= |fs| && w.err in {0, E_SPACE}
    ensures var e := FieldsOut(cap, w, fs, n).err;
            if LastRefusal(fs[..n]) != 0 then e == LastRefusal(fs[..n]) else e in {0, E_SPACE}
  {
    hide FieldOut, Safe;
    if n > 0 {
      FieldsError(cap, w, fs, n - 1);
      FieldError(cap, FieldsOut(cap, w, fs, n - 1), fs[n - 1], n == 1);
      assert fs[..n][..n - 1] == fs[..n - 1];
    }
  }

  /** Main result: the error a record ends with is that of the last value refused, whether or not there was room;
      else want of space. */
  lemma RecordErrorIs(cap: nat, fs: seq<Field>)
    requires fs != []
    ensures RecordOut(cap, fs).err == ErrorOf(cap, fs)
    ensures ErrorOf(cap, fs) == 0 <==> ValuesWritable(fs) && |Text(fs)| < cap
  {
    hide FieldsOut, Text, ValuesWritable, LastRefusal;
    RecordOutIsWhole(cap, fs);
    NoRefusalIff(fs);
    FieldsError(cap, PutOut(cap, Out("", 0), "{"), fs, |fs|);
    assert fs[..|fs|] == fs;
  }

  class Writer {
    const p: array<char>
    var n: nat
    var err: int

    ghost predicate Valid()
      reads this, p
    {
      n <= p.Length && (n > 0 ==> n < p.Length && p[n] == '\0')
    }

    ghost function View(): Out
      requires Valid()
      reads this, p
    {
      Out(p[..n], err)
    }

    constructor (p: array<char>)
      ensures Valid() && View() == Out("", 0) && this.p == p
    {
      this.p := p;
      n, err := 0, 0;
    }

    method Put(s: string)
      requires Valid()
      modifies this, p
      ensures Valid() && View() == PutOut(p.Length, old(View()), s)
    {
      if err != 0 { return; }
      if n + |s| + 1 > p.Length {
        err := E_SPACE;
        return;
      }
      var i := 0;
      while i < |s|
        invariant 0 <= i <= |s| && n == old(n) && err == old(err)
        invariant p[..n] == old(p[..n])
        invariant forall k :: 0 <= k < i ==> p[n + k] == s[k]
      {
        p[n + i] := s[i];
        i := i + 1;
      }
      n := n + |s|;
      p[n] := '\0';
      assert p[..n] == old(p[..n]) + s;
    }

    method KStr(k: string, v: string, first: bool)
      requires Valid()
      modifies this, p
      ensures Valid() && View() == FieldOut(p.Length, old(View()), Field(k, Str(v)), first)
    {
      if !Safe(v) {
        err := E_STRING;
        return;
      }
      Put(if first then "\"" else ",\"");
      Put(k);
      Put("\":\"");
      Put(v);
      Put("\"");
    }

    /** The nested object under "meta", printed beforehand by the caller. */
    method KSize(k: string, v: nat)
      requires Valid()
      modifies this, p
      ensures Valid() && View() == FieldOut(p.Length, old(View()), Field(k, Size(v)), false)
    {
      Put(",\"" + k + "\":");
      Put(SizeText(v));
    }

    method KNum(k: string, v: nat, first: bool)
      requires Valid()
      modifies this, p
      ensures Valid() && View() == FieldOut(p.Length, old(View()), Field(k, Num(v)), first)
    {
      if v > MAX_SAFE {
        err := E_NUMBER;
        return;
      }
      Put(if first then "\"" else ",\"");
      Put(k);
      Put("\":");
      Put(Decimal(v));
    }
  }
}
