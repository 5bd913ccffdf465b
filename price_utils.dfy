/**
  The oracle node's price utilities: reading a price out of a source's JSON reply along a dot
  path, and the median of the prices collected from several sources.

  JavaScript numbers are modelled as reals. The built-ins `Number(text)`, `parseFloat(text)` and
  `String(value)` are not modelled; they are the fields of a `JsRuntime` that the caller passes
  in, so every statement below holds whatever those built-ins compute.
 */
module PriceUtils {
  import opened Wrappers

  /** A JavaScript number as `Number()` or `parseFloat` returns it. */
  datatype JsNumber = NaN | PosInfinity | NegInfinity | Finite(value: real)

  /**
    A value that `response.json()` can produce, and `undefined`, the value of a missing property.
    A number is a finite real, so the `Infinity` that an overflowing literal parses to is not one.
   */
  datatype Json =
    | Undefined
    | Null
    | Bool(b: bool)
    | Num(n: real)
    | Str(s: string)
    | Arr(elems: seq<Json>)
    | Obj(fields: map<string, Json>)

  /** The built-ins the path walk calls: `Number`, `parseFloat` and `String`. */
  datatype JsRuntime = JsRuntime(toNumber: string -> JsNumber, parseFloat: string -> JsNumber, toString: Json -> string)

  // ---------------------------------------------------------------- the path and its segments

  /** The characters `String.prototype.trim` removes: white space and line terminators. */
  predicate IsWhitespace(c: char) {
    || c == ' ' || c == '\t' || c == '\n' || c == '\r' || c == '\U{000B}' || c == '\U{000C}'
    || c == '\U{00A0}' || c == '\U{1680}' || ('\U{2000}' <= c <= '\U{200A}')
    || c == '\U{2028}' || c == '\U{2029}' || c == '\U{202F}' || c == '\U{205F}' || c == '\U{3000}'
    || c == '\U{FEFF}'
  }

  function TrimStart(s: string): (r: string)
    ensures |r| <= |s|
  {
    if s != [] && IsWhitespace(s[0]) then TrimStart(s[1..]) else s
  }

  function TrimEnd(s: string): (r: string)
    ensures |r| <= |s|
  {
    if s != [] && IsWhitespace(s[|s| - 1]) then TrimEnd(s[..|s| - 1]) else s
  }

  /** `s.trim()`. */
  function Trim(s: string): string {
    TrimEnd(TrimStart(s))
  }

  lemma {:induction false} TrimStartSpec(s: string)
    ensures var r := TrimStart(s);
      && r == s[|s| - |r|..]
      && (r != [] ==> !IsWhitespace(r[0]))
      && (forall k :: 0 <= k < |s| - |r| ==> IsWhitespace(s[k]))
  {
    if s != [] && IsWhitespace(s[0]) {
      TrimStartSpec(s[1..]);
      var r := TrimStart(s);
      forall k | 0 <= k < |s| - |r| ensures IsWhitespace(s[k]) {
        if k > 0 { assert s[k] == s[1..][k - 1]; }
      }
    }
  }

  lemma {:induction false} TrimEndSpec(s: string)
    ensures var r := TrimEnd(s);
      && r == s[..|r|]
      && (r != [] ==> !IsWhitespace(r[|r| - 1]))
      && (forall k :: |r| <= k < |s| ==> IsWhitespace(s[k]))
  {
    if s != [] && IsWhitespace(s[|s| - 1]) {
      TrimEndSpec(s[..|s| - 1]);
      var r := TrimEnd(s);
      forall k | |r| <= k < |s| ensures IsWhitespace(s[k]) {
        if k < |s| - 1 { assert s[k] == s[..|s| - 1][k]; }
      }
    }
  }

  /**
    `trim` removes the white space at both ends and nothing else: the result is a slice of the
    text, everything outside it is white space, and it neither starts nor ends with white space.
   */
  lemma TrimSpec(s: string)
    ensures var r := Trim(s); var i := |s| - |TrimStart(s)|;
      && i + |r| <= |s| && r == s[i..i + |r|]
      && (forall k :: 0 <= k < i ==> IsWhitespace(s[k]))
      && (forall k :: i + |r| <= k < |s| ==> IsWhitespace(s[k]))
      && (r != [] ==> !IsWhitespace(r[0]) && !IsWhitespace(r[|r| - 1]))
  {
    var t := TrimStart(s);
    var r := TrimEnd(t);
    TrimStartSpec(s);
    TrimEndSpec(t);
    var i := |s| - |t|;
    assert t == s[i..];
    assert r == s[i..i + |r|];
    forall k | i + |r| <= k < |s| ensures IsWhitespace(s[k]) {
      assert s[k] == t[k - i];
    }
    if r != [] { assert r[0] == t[0]; }
  }

  /** `s.split('.')`: the pieces between the dots, each possibly empty; there is at least one. */
  function Split(s: string): (r: seq<string>)
    ensures |r| >= 1
  {
    if s == [] then [""]
    else if s[0] == '.' then [""] + Split(s[1..])
    else
      var rest := Split(s[1..]);
      [[s[0]] + rest[0]] + rest[1..]
  }

  /** The pieces joined back with dots. */
  function Join(parts: seq<string>): string
    requires |parts| >= 1
  {
    if |parts| == 1 then parts[0] else parts[0] + "." + Join(parts[1..])
  }

  /** Splitting on the dots loses nothing: joining the pieces gives the path back. */
  lemma {:induction false} JoinSplit(s: string)
    ensures Join(Split(s)) == s
  {
    if s != [] {
      JoinSplit(s[1..]);
      var rest := Split(s[1..]);
      if s[0] == '.' {
        assert Split(s)[1..] == rest;
      } else if |rest| == 1 {
        assert s == [s[0]] + s[1..];
      } else {
        assert Split(s)[1..] == rest[1..];
        assert s == [s[0]] + s[1..];
      }
    }
  }

  /** No piece contains a dot. */
  lemma {:induction false} SplitHasNoDots(s: string)
    ensures forall x :: x in Split(s) ==> '.' !in x
  {
    if s != [] {
      SplitHasNoDots(s[1..]);
      var rest := Split(s[1..]);
      if s[0] != '.' {
        assert Split(s) == [[s[0]] + rest[0]] + rest[1..];
        assert rest[0] in rest;
        forall x | x in rest[1..] ensures x in rest { }
      }
    }
  }

  /** A dot between two texts separates their pieces. */
  lemma {:induction false} SplitAtDot(a: string, b: string)
    ensures Split(a + "." + b) == Split(a) + Split(b)
  {
    if a == [] {
      assert a + "." + b == ['.'] + b;
      SplitCons('.', b);
    } else {
      assert a == [a[0]] + a[1..];
      assert a + "." + b == [a[0]] + (a[1..] + "." + b);
      SplitAtDot(a[1..], b);
      SplitAtDotStep(a[0], a[1..], b);
    }
  }

  lemma SplitAtDotStep(c: char, t: string, b: string)
    requires Split(t + "." + b) == Split(t) + Split(b)
    ensures Split([c] + (t + "." + b)) == Split([c] + t) + Split(b)
  {
    SplitCons(c, t + "." + b);
    SplitCons(c, t);
    if c != '.' {
      ExtendFirst([c], Split(t + "." + b), Split(t), Split(b));
    } else {
      PrependEmpty(Split(t), Split(b));
    }
  }

  lemma PrependEmpty(front: seq<string>, back: seq<string>)
    ensures [""] + (front + back) == ([""] + front) + back
  {
  }

  /** Prefixing the first piece commutes with appending more pieces. */
  lemma ExtendFirst(prefix: string, whole: seq<string>, front: seq<string>, back: seq<string>)
    requires |front| >= 1 && whole == front + back
    ensures [prefix + whole[0]] + whole[1..] == ([prefix + front[0]] + front[1..]) + back
  {
    assert whole[0] == front[0];
    assert whole[1..] == front[1..] + back;
  }

  /** Split unfolded at the first character. */
  lemma SplitCons(c: char, t: string)
    ensures Split([c] + t) == if c == '.' then [""] + Split(t) else [[c] + Split(t)[0]] + Split(t)[1..]
  {
    assert ([c] + t)[0] == c && ([c] + t)[1..] == t;
  }

  /** `filter(Boolean)`: the non-empty pieces, in order. */
  function NonEmpty(parts: seq<string>): (r: seq<string>)
    ensures |r| <= |parts|
  {
    if parts == [] then []
    else if parts[0] == "" then NonEmpty(parts[1..])
    else [parts[0]] + NonEmpty(parts[1..])
  }

  lemma {:induction false} NonEmptyConcat(a: seq<string>, b: seq<string>)
    ensures NonEmpty(a + b) == NonEmpty(a) + NonEmpty(b)
  {
    if a != [] {
      NonEmptyConcat(a[1..], b);
      assert (a + b)[0] == a[0];
      assert (a + b)[1..] == a[1..] + b;
      if a[0] == "" {
        assert NonEmpty(a + b) == NonEmpty(a[1..] + b);
        assert NonEmpty(a) == NonEmpty(a[1..]);
      } else {
        assert NonEmpty(a + b) == [a[0]] + NonEmpty(a[1..] + b);
        assert NonEmpty(a) == [a[0]] + NonEmpty(a[1..]);
      }
    } else {
      assert a + b == b;
    }
  }

  /** The segments the walk follows: `path.split('.').filter(Boolean)`. */
  function Segments(path: string): seq<string> {
    NonEmpty(Split(path))
  }

  /** No segment is empty, and none contains a dot. */
  lemma {:induction false} SegmentsShape(path: string)
    ensures forall x :: x in Segments(path) ==> x != "" && '.' !in x
  {
    SplitHasNoDots(path);
    NonEmptyKeeps(Split(path));
  }

  lemma {:induction false} NonEmptyKeeps(parts: seq<string>)
    ensures forall x :: x in NonEmpty(parts) ==> x != "" && x in parts
  {
    if parts != [] {
      NonEmptyKeeps(parts[1..]);
    }
  }

  /** A run of dots counts as one: `"a..b"` has the segments of `"a.b"`. */
  lemma DoubleDotIsSingleDot(a: string, b: string)
    ensures Segments(a + ".." + b) == Segments(a + "." + b)
  {
    assert a + ".." + b == a + "." + ("." + b);
    SplitAtDot(a, "." + b);
    SplitAtDot(a, b);
    SplitAtDot("", b);
    assert "" + "." + b == "." + b;
    NonEmptyConcat(Split(a), Split("." + b));
    NonEmptyConcat(Split(a), Split(b));
    NonEmptyConcat(Split(""), Split(b));
  }

  // ---------------------------------------------------------------- the walk

  /** `index < 0`, for a number that is not NaN. */
  predicate IsNegative(index: JsNumber) {
    index.NegInfinity? || (index.Finite? && index.value < 0.0)
  }

  /** `index >= length`, for a number that is not NaN. */
  predicate AtLeast(index: JsNumber, length: nat) {
    index.PosInfinity? || (index.Finite? && index.value >= length as real)
  }

  /** `array[index]` for an index in range: an element when it is whole, otherwise `undefined`. */
  function ElementAt(elems: seq<Json>, index: JsNumber): (r: Json)
    requires !index.NaN? && !IsNegative(index) && !AtLeast(index, |elems|)
    ensures index.value == index.value.Floor as real ==> r == elems[index.value.Floor]
    ensures index.value != index.value.Floor as real ==> r == Undefined
  {
    var k := index.value.Floor;
    if index.value == k as real then elems[k] else Undefined
  }

  /**
    A JavaScript string's `length`: its UTF-16 code units, one for a character below U+10000 and
    two (a surrogate pair) for one above.
   */
  function Utf16Length(s: string): (n: nat)
    ensures |s| <= n <= 2 * |s|
    ensures n == |s| <==> forall i :: 0 <= i < |s| ==> (s[i] as int) < 0x1_0000
  {
    if s == [] then 0
    else
      assert forall i :: 1 <= i < |s| ==> s[i] == s[1..][i - 1];
      (if (s[0] as int) < 0x1_0000 then 1 else 2) + Utf16Length(s[1..])
  }

  /** An emoji outside the Basic Multilingual Plane has `length` 2. */
  lemma EmojiLength()
    ensures Property(Str("\U{1F600}"), "length") == Num(2.0)
  {
  }

  /**
    `value[key]` for a key that is not a number: an object's own property, the `length` of an
    array or a string (in UTF-16 code units), and `undefined` otherwise.
   */
  function Property(v: Json, key: string): (r: Json)
    ensures v.Obj? ==> r == if key in v.fields then v.fields[key] else Undefined
    ensures v.Arr? ==> r == if key == "length" then Num(|v.elems| as real) else Undefined
    ensures v.Str? ==> r == if key == "length" then Num(Utf16Length(v.s) as real) else Undefined
    ensures !v.Obj? && !v.Arr? && !v.Str? ==> r == Undefined
  {
    match v
    case Obj(fields) => if key in fields then fields[key] else Undefined
    case Arr(elems) => if key == "length" then Num(|elems| as real) else Undefined
    case Str(s) => if key == "length" then Num(Utf16Length(s) as real) else Undefined
    case _ => Undefined
  }

  /** A segment is an index when its trimmed text is not empty and `Number` of it is not NaN. */
  predicate IsIndexSegment(rt: JsRuntime, part: string) {
    Trim(part) != "" && !rt.toNumber(Trim(part)).NaN?
  }

  /** One pass of the loop: None where the loop returns null, else the new `current`. */
  function Step(rt: JsRuntime, current: Json, part: string): Option<Json> {
    if current.Null? || current.Undefined? then None
    else if IsIndexSegment(rt, part) then
      var index := rt.toNumber(Trim(part));
      if !current.Arr? || IsNegative(index) || AtLeast(index, |current.elems|) then None
      else Some(ElementAt(current.elems, index))
    else Some(Property(current, Trim(part)))
  }

  /** The loop over all segments: None where it returns null, else the final `current`. */
  function Walk(rt: JsRuntime, current: Json, parts: seq<string>): Option<Json>
    decreases |parts|
  {
    if parts == [] then Some(current)
    else
      match Step(rt, current, parts[0])
      case None => None
      case Some(next) => Walk(rt, next, parts[1..])
  }

  /** A finite number, or null (`Number.isFinite(parsed) ? parsed : null`). */
  function FiniteValue(n: JsNumber): (r: Option<real>)
    ensures r.Some? <==> n.Finite?
    ensures r.Some? ==> r.value == n.value
  {
    if n.Finite? then Some(n.value) else None
  }

  /** The coercion after the loop: a number as it is, anything else through `parseFloat`. */
  function Coerce(rt: JsRuntime, v: Json): Option<real> {
    match v
    case Undefined => None
    case Null => None
    case Num(n) => Some(n)
    case Str(s) => FiniteValue(rt.parseFloat(s))
    case _ => FiniteValue(rt.parseFloat(rt.toString(v)))
  }

  /** What `extractPriceFromPath(data, path)` returns. */
  function ExtractPrice(rt: JsRuntime, data: Json, path: string): Option<real> {
    match Walk(rt, data, Segments(path))
    case None => None
    case Some(v) => Coerce(rt, v)
  }

  /** `extractPriceFromPath`: the loop over the segments, then the coercion of what it reached. */
  method ExtractPriceFromPath(rt: JsRuntime, data: Json, path: string) returns (r: Option<real>)
    ensures r == ExtractPrice(rt, data, path)
  {
    var parts := Segments(path);
    var current := data;
    var i := 0;
    while i < |parts|
      invariant 0 <= i <= |parts|
      invariant Walk(rt, current, parts[i..]) == Walk(rt, data, parts)
    {
      assert parts[i..][0] == parts[i] && parts[i..][1..] == parts[i + 1..];
      if current.Null? || current.Undefined? {
        return None;
      }
      var trimmed := Trim(parts[i]);
      var index := rt.toNumber(trimmed);
      if trimmed != "" && !index.NaN? {
        if !current.Arr? {
          return None;
        }
        if IsNegative(index) || AtLeast(index, |current.elems|) {
          return None;
        }
        current := ElementAt(current.elems, index);
        i := i + 1;
        continue;
      }
      current := Property(current, trimmed);
      i := i + 1;
    }
    if current.Null? || current.Undefined? {
      return None;
    }
    if current.Num? {
      return Some(current.n);
    }
    if current.Str? {
      var parsed := rt.parseFloat(current.s);
      return if parsed.Finite? then Some(parsed.value) else None;
    }
    var parsed := rt.parseFloat(rt.toString(current));
    r := if parsed.Finite? then Some(parsed.value) else None;
  }

  // ---------------------------------------------------------------- properties of the walk

  /** Null or undefined, met before a segment or after the last one, gives null. */
  lemma {:induction false} NothingGivesNull(rt: JsRuntime, v: Json, path: string)
    requires v.Null? || v.Undefined?
    ensures ExtractPrice(rt, v, path) == None
  {
    var parts := Segments(path);
    if parts != [] {
      assert Step(rt, v, parts[0]) == None;
    }
  }

  /** Reading stops with null at the null or undefined it meets on the way. */
  lemma {:induction false} WalkThroughNothing(rt: JsRuntime, data: Json, parts: seq<string>, k: nat)
    requires k < |parts|
    requires Walk(rt, data, parts[..k]) == Some(Null) || Walk(rt, data, parts[..k]) == Some(Undefined)
    ensures Walk(rt, data, parts) == None
    decreases k
  {
    if k > 0 {
      assert parts[..k][0] == parts[0] && parts[..k][1..] == parts[1..][..k - 1];
      var next := Step(rt, data, parts[0]);
      WalkThroughNothing(rt, next.value, parts[1..], k - 1);
    } else {
      assert Step(rt, data, parts[0]) == None;
    }
  }

  /**
    A segment whose trimmed text is a number needs an array and an index within its bounds;
    so a negative segment such as `-1` always gives null, whatever `current` is.
   */
  lemma IndexSegment(rt: JsRuntime, current: Json, part: string)
    requires IsIndexSegment(rt, part)
    ensures var index := rt.toNumber(Trim(part));
      Step(rt, current, part).Some? <==>
        current.Arr? && !IsNegative(index) && !AtLeast(index, |current.elems|)
    ensures IsNegative(rt.toNumber(Trim(part))) ==> Step(rt, current, part) == None
  {
  }

  /** Any other segment is a property lookup with the trimmed text as the key. */
  lemma KeySegment(rt: JsRuntime, current: Json, part: string)
    requires !IsIndexSegment(rt, part) && !current.Null? && !current.Undefined?
    ensures Step(rt, current, part) == Some(Property(current, Trim(part)))
  {
  }

  /** `"a..b"` resolves like `"a.b"`. */
  lemma DoubleDotResolvesAlike(rt: JsRuntime, data: Json, a: string, b: string)
    ensures ExtractPrice(rt, data, a + ".." + b) == ExtractPrice(rt, data, a + "." + b)
  {
    DoubleDotIsSingleDot(a, b);
  }

  /** `{a: {b: {c: "42.5"}}}` at `a.b.c` gives 42.5. */
  lemma NestedObjectExample(rt: JsRuntime)
    requires rt.toNumber("a").NaN? && rt.toNumber("b").NaN? && rt.toNumber("c").NaN?
    requires rt.parseFloat("42.5") == Finite(42.5)
    ensures ExtractPrice(rt, Obj(map["a" := Obj(map["b" := Obj(map["c" := Str("42.5")])])]), "a.b.c") == Some(42.5)
  {
    NestedObjectSegments();
    KeyKeyKey(rt, "a", "b", "c", "42.5", "a.b.c");
  }

  /** `{x: {y: {z: text}}}` along the segments `x`, `y`, `z` reads `text` through `parseFloat`. */
  lemma KeyKeyKey(rt: JsRuntime, x: string, y: string, z: string, text: string, path: string)
    requires x != "" && !IsWhitespace(x[0]) && !IsWhitespace(x[|x| - 1]) && rt.toNumber(x).NaN?
    requires y != "" && !IsWhitespace(y[0]) && !IsWhitespace(y[|y| - 1]) && rt.toNumber(y).NaN?
    requires z != "" && !IsWhitespace(z[0]) && !IsWhitespace(z[|z| - 1]) && rt.toNumber(z).NaN?
    requires Segments(path) == [x, y, z]
    ensures ExtractPrice(rt, Obj(map[x := Obj(map[y := Obj(map[z := Str(text)])])]), path) == FiniteValue(rt.parseFloat(text))
  {
    var c := Obj(map[z := Str(text)]);
    var b := Obj(map[y := c]);
    var data := Obj(map[x := b]);
    KeyStep(rt, data, x, b);
    KeyStep(rt, b, y, c);
    KeyStep(rt, c, z, Str(text));
    WalkThree(rt, data, x, y, z, b, c, Str(text));
  }

  lemma NestedObjectSegments()
    ensures Segments("a.b.c") == ["a", "b", "c"]
  {
    assert "a.b.c" == "a" + "." + "b" + "." + "c";
    ThreeSegments("a", "b", "c");
  }

  /** A key segment of lower-case letters, read from an object that has it. */
  lemma KeyStep(rt: JsRuntime, v: Json, key: string, value: Json)
    requires key != "" && !IsWhitespace(key[0]) && !IsWhitespace(key[|key| - 1])
    requires rt.toNumber(key).NaN? && v.Obj? && key in v.fields && v.fields[key] == value
    ensures Step(rt, v, key) == Some(value)
  {
    TrimsToItself(key);
  }

  /** `{data: [{last: "3.55"}]}` at `data.0.last` gives 3.55. */
  lemma ArrayIndexExample(rt: JsRuntime)
    requires rt.toNumber("data").NaN? && rt.toNumber("0") == Finite(0.0) && rt.toNumber("last").NaN?
    requires rt.parseFloat("3.55") == Finite(3.55)
    ensures ExtractPrice(rt, Obj(map["data" := Arr([Obj(map["last" := Str("3.55")])])]), "data.0.last") == Some(3.55)
  {
    ArrayIndexSegments();
    KeyIndexKey(rt, "data", "last", "3.55", "data.0.last");
  }

  /** `{outer: [{inner: text}]}` along the segments `outer`, `0`, `inner` reads `text` through `parseFloat`. */
  lemma KeyIndexKey(rt: JsRuntime, outer: string, inner: string, text: string, path: string)
    requires outer != "" && !IsWhitespace(outer[0]) && !IsWhitespace(outer[|outer| - 1])
    requires inner != "" && !IsWhitespace(inner[0]) && !IsWhitespace(inner[|inner| - 1])
    requires rt.toNumber(outer).NaN? && rt.toNumber("0") == Finite(0.0) && rt.toNumber(inner).NaN?
    requires Segments(path) == [outer, "0", inner]
    ensures ExtractPrice(rt, Obj(map[outer := Arr([Obj(map[inner := Str(text)])])]), path) == FiniteValue(rt.parseFloat(text))
  {
    var entry := Obj(map[inner := Str(text)]);
    var list := Arr([entry]);
    var data := Obj(map[outer := list]);
    KeyStep(rt, data, outer, list);
    FirstElementStep(rt, list);
    KeyStep(rt, entry, inner, Str(text));
    WalkThree(rt, data, outer, "0", inner, list, entry, Str(text));
  }

  lemma ArrayIndexSegments()
    ensures Segments("data.0.last") == ["data", "0", "last"]
  {
    assert "data.0.last" == "data" + "." + "0" + "." + "last";
    ThreeSegments("data", "0", "last");
  }

  /** The segment `0` reads the first element of a non-empty array. */
  lemma FirstElementStep(rt: JsRuntime, v: Json)
    requires rt.toNumber("0") == Finite(0.0) && v.Arr? && |v.elems| > 0
    ensures Step(rt, v, "0") == Some(v.elems[0])
  {
    TrimsToItself("0");
    assert (0.0).Floor == 0;
  }

  /** `{a: {}}` at `a.price` gives null. */
  lemma MissingKeyExample(rt: JsRuntime)
    requires rt.toNumber("a").NaN? && rt.toNumber("price").NaN?
    ensures ExtractPrice(rt, Obj(map["a" := Obj(map[])]), "a.price") == None
  {
    var data := Obj(map["a" := Obj(map[])]);
    MissingKeySegments();
    KeyStep(rt, data, "a", Obj(map[]));
    TrimsToItself("price");
    assert Step(rt, Obj(map[]), "price") == Some(Undefined);
    assert ["a", "price"][1..] == ["price"];
    assert Walk(rt, data, ["a", "price"]) == Walk(rt, Obj(map[]), ["price"]);
    assert ["price"][1..] == [];
    assert Walk(rt, Obj(map[]), ["price"]) == Walk(rt, Undefined, []);
  }

  lemma MissingKeySegments()
    ensures Segments("a.price") == ["a", "price"]
  {
    assert "a.price" == "a" + "." + "price";
    SplitAtDot("a", "price");
    NoDotSplit("a");
    NoDotSplit("price");
    assert Split("a.price") == ["a", "price"];
    assert ["a", "price"][1..] == ["price"];
    assert NonEmpty(["price"]) == ["price"];
    assert NonEmpty(["a", "price"]) == ["a"] + NonEmpty(["price"]);
  }

  /** Reading along a path whose segments are known. */
  lemma ExtractAlong(rt: JsRuntime, data: Json, path: string, parts: seq<string>)
    requires Segments(path) == parts
    ensures ExtractPrice(rt, data, path) == match Walk(rt, data, parts) case None => None case Some(v) => Coerce(rt, v)
  {
  }

  /** The walk along three segments, one step at a time. */
  lemma WalkThree(rt: JsRuntime, v: Json, x: string, y: string, z: string, v1: Json, v2: Json, v3: Json)
    requires Step(rt, v, x) == Some(v1) && Step(rt, v1, y) == Some(v2) && Step(rt, v2, z) == Some(v3)
    ensures Walk(rt, v, [x, y, z]) == Some(v3)
  {
    WalkStep(rt, v2, z, [], v3);
    WalkStep(rt, v1, y, [z], v2);
    WalkStep(rt, v, x, [y, z], v1);
  }

  /** A walk whose first step succeeds goes on from where that step led. */
  lemma WalkStep(rt: JsRuntime, v: Json, p: string, rest: seq<string>, next: Json)
    requires Step(rt, v, p) == Some(next)
    ensures Walk(rt, v, [p] + rest) == Walk(rt, next, rest)
  {
    assert ([p] + rest)[0] == p && ([p] + rest)[1..] == rest;
  }

  /** The segments of `x.y.z` for dot-free, non-empty `x`, `y` and `z`. */
  lemma ThreeSegments(x: string, y: string, z: string)
    requires x != "" && y != "" && z != ""
    requires '.' !in x && '.' !in y && '.' !in z
    ensures Segments(x + "." + y + "." + z) == [x, y, z]
  {
    assert x + "." + y + "." + z == x + "." + (y + "." + z);
    SplitAtDot(x, y + "." + z);
    SplitAtDot(y, z);
    NoDotSplit(x);
    NoDotSplit(y);
    NoDotSplit(z);
    assert Split(x + "." + y + "." + z) == [x, y, z];
    assert [x, y, z][1..] == [y, z];
    assert [y, z][1..] == [z];
    assert NonEmpty([z]) == [z];
    assert NonEmpty([y, z]) == [y] + [z];
    assert NonEmpty([x, y, z]) == [x] + [y, z];
  }

  /** A text without dots is one piece. */
  lemma {:induction false} NoDotSplit(s: string)
    requires '.' !in s
    ensures Split(s) == [s]
  {
    if s != [] {
      assert '.' !in s[1..] by {
        forall k | 0 <= k < |s[1..]| ensures s[1..][k] != '.' { assert s[1..][k] == s[k + 1]; }
      }
      NoDotSplit(s[1..]);
      assert s == [s[0]] + s[1..];
    }
  }

  /** A text that neither starts nor ends with white space trims to itself. */
  lemma TrimsToItself(s: string)
    requires s != "" && !IsWhitespace(s[0]) && !IsWhitespace(s[|s| - 1])
    ensures Trim(s) == s
  {
    assert TrimStart(s) == s;
  }

  // ---------------------------------------------------------------- the median

  predicate Sorted(s: seq<real>) {
    forall i, j :: 0 <= i < j < |s| ==> s[i] <= s[j]
  }

  /** Inserts `x` before the first element it does not exceed. */
  function Insert(x: real, s: seq<real>): (r: seq<real>)
    ensures |r| == |s| + 1
  {
    if s == [] then [x]
    else if x <= s[0] then [x] + s
    else [s[0]] + Insert(x, s[1..])
  }

  /** `[...prices].sort((a, b) => a - b)`: an ascending copy. */
  function Sort(s: seq<real>): (r: seq<real>)
    ensures |r| == |s|
  {
    if s == [] then [] else Insert(s[0], Sort(s[1..]))
  }

  lemma {:induction false} InsertPermutation(x: real, s: seq<real>)
    ensures multiset(Insert(x, s)) == multiset(s) + multiset{x}
  {
    if s != [] && x > s[0] {
      InsertPermutation(x, s[1..]);
      assert s == [s[0]] + s[1..];
    }
  }

  /** The sorted copy has the same elements, each as often. */
  lemma {:induction false} SortPermutation(s: seq<real>)
    ensures multiset(Sort(s)) == multiset(s)
  {
    if s != [] {
      SortPermutation(s[1..]);
      InsertPermutation(s[0], Sort(s[1..]));
      assert s == [s[0]] + s[1..];
    }
  }

  lemma {:induction false} InsertSorted(x: real, s: seq<real>)
    requires Sorted(s)
    ensures Sorted(Insert(x, s))
  {
    if s != [] && x > s[0] {
      InsertSorted(x, s[1..]);
      InsertPermutation(x, s[1..]);
      var rest := Insert(x, s[1..]);
      forall j | 0 <= j < |rest| ensures s[0] <= rest[j] {
        assert rest[j] in multiset(rest);
        assert rest[j] == x || rest[j] in multiset(s[1..]);
        if rest[j] != x {
          var k :| 0 <= k < |s[1..]| && s[1..][k] == rest[j];
          assert s[k + 1] == rest[j];
        }
      }
    }
  }

  /** The sorted copy is ascending. */
  lemma {:induction false} SortSorted(s: seq<real>)
    ensures Sorted(Sort(s))
  {
    if s != [] {
      SortSorted(s[1..]);
      InsertSorted(s[0], Sort(s[1..]));
    }
  }

  lemma SortedHeadIsLeast(s: seq<real>, x: real)
    requires Sorted(s) && x in multiset(s)
    ensures s[0] <= x
  {
    var i :| 0 <= i < |s| && s[i] == x;
    if i > 0 { assert s[0] <= s[i]; }
  }

  lemma SortedTail(s: seq<real>)
    requires Sorted(s) && s != []
    ensures Sorted(s[1..])
  {
    forall i, j | 0 <= i < j < |s| - 1 ensures s[1..][i] <= s[1..][j] {
      assert s[1..][i] == s[i + 1] && s[1..][j] == s[j + 1];
    }
  }

  lemma MultisetTail(s: seq<real>)
    requires s != []
    ensures multiset(s[1..]) == multiset(s) - multiset{s[0]}
  {
    assert s == [s[0]] + s[1..];
  }

  /** Two ascending sequences with the same elements start with the same element. */
  lemma SameHead(a: seq<real>, b: seq<real>)
    requires Sorted(a) && Sorted(b) && a != []
    requires multiset(a) == multiset(b)
    ensures b != [] && a[0] == b[0]
  {
    assert a[0] in multiset(a);
    assert b != [];
    assert b[0] in multiset(b);
    SortedHeadIsLeast(b, a[0]);
    SortedHeadIsLeast(a, b[0]);
  }

  /** Two ascending sequences with the same elements are equal. */
  lemma {:induction false} SortedUnique(a: seq<real>, b: seq<real>)
    requires Sorted(a) && Sorted(b)
    requires multiset(a) == multiset(b)
    ensures a == b
  {
    if a == [] {
      assert |b| == |multiset(b)| == 0;
    } else {
      SameHead(a, b);
      MultisetTail(a);
      MultisetTail(b);
      SortedTail(a);
      SortedTail(b);
      SortedUnique(a[1..], b[1..]);
      assert a == [a[0]] + a[1..] && b == [b[0]] + b[1..];
    }
  }

  /** The sorted copy of `s` is the only ascending sequence with the elements of `s`. */
  lemma SortCharacterized(s: seq<real>, t: seq<real>)
    requires Sorted(t) && multiset(t) == multiset(s)
    ensures Sort(s) == t
  {
    SortSorted(s);
    SortPermutation(s);
    SortedUnique(Sort(s), t);
  }

  /** `calculateMedian`: 0 for no prices; the middle of the sorted copy, or the mean of its two middles. */
  function CalculateMedian(prices: seq<real>): real {
    if |prices| == 0 then 0.0
    else
      var sorted := Sort(prices);
      var mid := |sorted| / 2;
      if |sorted| % 2 == 0 then (sorted[mid - 1] + sorted[mid]) / 2.0 else sorted[mid]
  }

  /** The median of a sorted list, read off directly. */
  lemma MedianOfSorted(s: seq<real>)
    requires Sorted(s) && |s| > 0
    ensures CalculateMedian(s) == if |s| % 2 == 0 then (s[|s| / 2 - 1] + s[|s| / 2]) / 2.0 else s[|s| / 2]
  {
    SortCharacterized(s, s);
  }

  /** No prices give 0. */
  lemma MedianOfNothing()
    ensures CalculateMedian([]) == 0.0
  {
  }

  /** The median lies between the smallest and the largest price. */
  lemma MedianBetween(prices: seq<real>)
    requires |prices| > 0
    ensures exists i :: 0 <= i < |prices| && prices[i] <= CalculateMedian(prices)
    ensures exists j :: 0 <= j < |prices| && CalculateMedian(prices) <= prices[j]
    ensures Least(prices) <= CalculateMedian(prices) <= Greatest(prices)
  {
    var s := Sort(prices);
    SortSorted(prices);
    SortPermutation(prices);
    var n := |s|;
    var lo := if n % 2 == 0 then n / 2 - 1 else n / 2;
    var hi := n / 2;
    assert s[lo] <= CalculateMedian(prices) <= s[hi];
    assert s[lo] in multiset(prices) && s[hi] in multiset(prices);
    var i :| 0 <= i < |prices| && prices[i] == s[lo];
    var j :| 0 <= j < |prices| && prices[j] == s[hi];
    LeastIsLeast(prices);
    GreatestIsGreatest(prices);
  }

  function Least(s: seq<real>): (m: real)
    requires |s| > 0
  {
    if |s| == 1 then s[0] else var m := Least(s[1..]); if s[0] <= m then s[0] else m
  }

  function Greatest(s: seq<real>): (m: real)
    requires |s| > 0
  {
    if |s| == 1 then s[0] else var m := Greatest(s[1..]); if s[0] >= m then s[0] else m
  }

  /** `Least` is the minimum: no element is smaller and it is one of them. */
  lemma {:induction false} LeastIsLeast(s: seq<real>)
    requires |s| > 0
    ensures (forall k :: 0 <= k < |s| ==> Least(s) <= s[k]) && Least(s) in s
  {
    if |s| > 1 {
      LeastIsLeast(s[1..]);
      assert forall k :: 1 <= k < |s| ==> s[k] == s[1..][k - 1];
    }
  }

  /** `Greatest` is the maximum: no element is larger and it is one of them. */
  lemma {:induction false} GreatestIsGreatest(s: seq<real>)
    requires |s| > 0
    ensures (forall k :: 0 <= k < |s| ==> s[k] <= Greatest(s)) && Greatest(s) in s
  {
    if |s| > 1 {
      GreatestIsGreatest(s[1..]);
      assert forall k :: 1 <= k < |s| ==> s[k] == s[1..][k - 1];
    }
  }

  /** The median does not depend on the order of the prices. */
  lemma MedianPermutationInvariant(a: seq<real>, b: seq<real>)
    requires multiset(a) == multiset(b)
    ensures CalculateMedian(a) == CalculateMedian(b)
  {
    SortSorted(b);
    SortPermutation(b);
    SortCharacterized(a, Sort(b));
    assert |a| == |multiset(a)| == |multiset(b)| == |b|;
  }

  /** `[1, 3, 2, 10, 5]` has median 3. */
  lemma OddMedianExample(prices: seq<real>)
    requires prices == [1.0, 3.0, 2.0, 10.0, 5.0]
    ensures CalculateMedian(prices) == 3.0
  {
    var s := [1.0, 2.0, 3.0, 5.0, 10.0];
    assert Sort([5.0]) == [5.0];
    assert Sort([10.0, 5.0]) == [5.0, 10.0];
    assert Sort([2.0, 10.0, 5.0]) == [2.0, 5.0, 10.0];
    assert Sort([3.0, 2.0, 10.0, 5.0]) == [2.0, 3.0, 5.0, 10.0];
    assert Sort(prices) == s;
  }

  /** `[4, 1, 3, 2]` has median 2.5. */
  lemma EvenMedianExample(prices: seq<real>)
    requires prices == [4.0, 1.0, 3.0, 2.0]
    ensures CalculateMedian(prices) == 2.5
  {
    var s := [1.0, 2.0, 3.0, 4.0];
    assert Sort([2.0]) == [2.0];
    assert Sort([3.0, 2.0]) == [2.0, 3.0];
    assert [1.0, 3.0, 2.0][1..] == [3.0, 2.0];
    assert Sort([1.0, 3.0, 2.0]) == [1.0, 2.0, 3.0];
    assert prices[1..] == [1.0, 3.0, 2.0];
    assert Insert(4.0, [3.0]) == [3.0, 4.0];
    assert Insert(4.0, [2.0, 3.0]) == [2.0, 3.0, 4.0];
    assert Sort(prices) == s;
  }
}
