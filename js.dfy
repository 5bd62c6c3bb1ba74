/** JavaScript values and the handful of built-in string operations the
    diet helper relies on (`trim`, `split`, `toLowerCase`, `startsWith`),
    together with the truthiness rules its `if (x)` and `x || y` tests use. */
module Js {

  datatype Option<+T> = None | Some(value: T)

  /** The outcome of a JavaScript expression that may throw a TypeError
      (a property read on `null`, the `in` operator on a primitive, ...). */
  datatype Completion<+T> = Normal(value: T) | ThrowsTypeError

  /** A JSON-like JavaScript value. Numbers are integers here. */
  datatype JsValue =
    | Undefined
    | Null
    | Bool(b: bool)
    | Num(n: int)
    | Str(s: string)
    | Arr(elems: seq<JsValue>)
    | Obj(fields: map<string, JsValue>)

  /** ToBoolean: `undefined`, `null`, `false`, `0` and `""` are falsy;
      every array and every object is truthy, even an empty one. */
  predicate Truthy(v: JsValue)
  {
    match v
    case Undefined => false
    case Null => false
    case Bool(b) => b
    case Num(n) => n != 0
    case Str(s) => s != ""
    case Arr(_) => true
    case Obj(_) => true
  }

  /** `v && typeof v === 'object'`: arrays and plain objects. */
  predicate IsObject(v: JsValue)
  {
    v.Arr? || v.Obj?
  }

  /** `key in v` for an object: its own keys (inherited prototype members
      and array indices are not represented). */
  predicate HasKey(v: JsValue, key: string)
  {
    v.Obj? && key in v.fields
  }

  /** `v.key`: reading a property of `null` or `undefined` throws; a missing
      key, or any key of a primitive or an array, reads as `undefined`. */
  function Property(v: JsValue, key: string): (r: Completion<JsValue>)
    ensures r.ThrowsTypeError? <==> v.Undefined? || v.Null?
    ensures HasKey(v, key) ==> r == Normal(v.fields[key])
  {
    match v
    case Undefined => ThrowsTypeError
    case Null => ThrowsTypeError
    case Obj(fields) => Normal(if key in fields then fields[key] else Undefined)
    case _ => Normal(Undefined)
  }

  /** `v || fallback` */
  function OrElse(v: JsValue, fallback: JsValue): JsValue
  {
    if Truthy(v) then v else fallback
  }

  /** The `length` property as a number, when it is one: strings and arrays. */
  function LengthOf(v: JsValue): Option<int>
  {
    match v
    case Str(s) => Some(|s|)
    case Arr(e) => Some(|e|)
    case _ => None
  }

  // ---------------------------------------------------------------------
  // Strings

  /** The characters `String.prototype.trim` strips: WhiteSpace and
      LineTerminator of ECMAScript. */
  predicate IsWhitespace(c: char)
  {
    c == ' ' || c == '\t' || c == '\n' || c == '\r' || c == '\U{B}' || c == '\U{C}'
    || c == '\U{A0}' || c == '\U{1680}' || ('\U{2000}' <= c <= '\U{200A}')
    || c == '\U{2028}' || c == '\U{2029}' || c == '\U{202F}' || c == '\U{205F}'
    || c == '\U{3000}' || c == '\U{FEFF}'
  }

  ghost predicate AllWhitespace(s: string)
  {
    forall i :: 0 <= i < |s| ==> IsWhitespace(s[i])
  }

  /** Strips leading whitespace: the result is the suffix of `s` that starts
      at its first non-whitespace character. */
  function TrimStart(s: string): (r: string)
    ensures |r| <= |s| && r == s[|s| - |r|..]
    ensures AllWhitespace(s[..|s| - |r|])
    ensures r == [] || !IsWhitespace(r[0])
  {
    if |s| > 0 && IsWhitespace(s[0]) then TrimStart(s[1..]) else s
  }

  /** Strips trailing whitespace: the result is the prefix of `s` that ends
      at its last non-whitespace character. */
  function TrimEnd(s: string): (r: string)
    ensures |r| <= |s| && r == s[..|r|]
    ensures AllWhitespace(s[|r|..])
    ensures r == [] || !IsWhitespace(r[|r| - 1])
  {
    if |s| > 0 && IsWhitespace(s[|s| - 1]) then TrimEnd(s[..|s| - 1]) else s
  }

  /** `s.trim()` */
  function Trim(s: string): string
  {
    TrimEnd(TrimStart(s))
  }

  /** A string trims to nothing exactly when every character is whitespace;
      otherwise its trimmed form neither starts nor ends with whitespace. */
  lemma TrimEmptyIff(s: string)
    ensures Trim(s) == [] <==> AllWhitespace(s)
    ensures Trim(s) != [] ==> !IsWhitespace(Trim(s)[0]) && !IsWhitespace(Trim(s)[|Trim(s)| - 1])
  {
    var t := TrimStart(s);
    var k := |s| - |t|;
    if t == [] {
      assert s[..k] == s;
    } else {
      assert t[0] == s[k] && !IsWhitespace(s[k]);
      TrimEndKeepsFirst(t);
    }
  }

  /** Trimming the end of a string that starts with a non-whitespace
      character keeps that character. */
  lemma TrimEndKeepsFirst(t: string)
    requires t != [] && !IsWhitespace(t[0])
    ensures TrimEnd(t) != [] && TrimEnd(t)[0] == t[0]
  {
    var r := TrimEnd(t);
    if |r| < |t| {
      assert t[|r|..][0] == t[|r|];
    }
  }

  /** `s.split(d)` for a one-character separator `d`. */
  function Split(s: string, d: char): (r: seq<string>)
    ensures |r| >= 1
    ensures forall i :: 0 <= i < |r| ==> d !in r[i]
  {
    if s == [] then [[]]
    else
      var init := Split(s[..|s| - 1], d);
      var c := s[|s| - 1];
      if c == d then init + [[]]
      else init[..|init| - 1] + [init[|init| - 1] + [c]]
  }

  /** `parts.join(d)` */
  function Join(parts: seq<string>, d: char): string
    requires |parts| >= 1
  {
    if |parts| == 1 then parts[0]
    else Join(parts[..|parts| - 1], d) + [d] + parts[|parts| - 1]
  }

  /** Splitting loses nothing: joining the pieces back gives the string. */
  lemma {:induction false} JoinSplit(s: string, d: char)
    ensures Join(Split(s, d), d) == s
  {
    if s != [] {
      var front := s[..|s| - 1];
      var init := Split(front, d);
      JoinSplit(front, d);
      var c := s[|s| - 1];
      assert s == front + [c];
      if c == d {
        assert (init + [[]])[..|init|] == init;
      } else {
        JoinExtendLast(init, d, c);
      }
    }
  }

  /** Appending a character to the last piece appends it to the join. */
  lemma JoinExtendLast(parts: seq<string>, d: char, c: char)
    requires |parts| >= 1
    ensures Join(parts[..|parts| - 1] + [parts[|parts| - 1] + [c]], d) == Join(parts, d) + [c]
  {
    var q := parts[..|parts| - 1] + [parts[|parts| - 1] + [c]];
    if |parts| > 1 {
      assert q[..|q| - 1] == parts[..|parts| - 1];
    }
  }

  /** `s.split(d).pop()`: the text after the last separator. */
  function LastPiece(s: string, d: char): string
  {
    var parts := Split(s, d);
    parts[|parts| - 1]
  }

  /** A string without the separator splits into itself alone. */
  lemma {:induction false} SplitWithoutSeparator(s: string, d: char)
    requires d !in s
    ensures Split(s, d) == [s]
  {
    if s != [] {
      SplitWithoutSeparator(s[..|s| - 1], d);
      assert s == s[..|s| - 1] + [s[|s| - 1]];
    }
  }

  /** Text after a separator becomes one more piece, when it holds no
      separator itself. */
  lemma {:induction false} SplitAfterSeparator(stem: string, d: char, tail: string)
    requires d !in tail
    ensures Split(stem + [d] + tail, d) == Split(stem, d) + [tail]
  {
    var s := stem + [d] + tail;
    if tail == [] {
      assert s[..|s| - 1] == stem;
    } else {
      var front := tail[..|tail| - 1];
      assert s[..|s| - 1] == stem + [d] + front;
      SplitAfterSeparator(stem, d, front);
      assert tail == front + [tail[|tail| - 1]];
    }
  }

  /** `c.toLowerCase()` for the ASCII letters. */
  function LowerChar(c: char): char
  {
    if 'A' <= c <= 'Z' then (c as int - 'A' as int + 'a' as int) as char else c
  }

  /** `s.toLowerCase()`, ASCII letters only. */
  function ToLower(s: string): (r: string)
    ensures |r| == |s|
    ensures forall i :: 0 <= i < |r| ==> !('A' <= r[i] <= 'Z')
    ensures forall i :: 0 <= i < |s| && !('A' <= s[i] <= 'Z') ==> r[i] == s[i]
    ensures forall i :: 0 <= i < |s| && 'A' <= s[i] <= 'Z' ==> r[i] as int == s[i] as int + 32
  {
    seq(|s|, i requires 0 <= i < |s| => LowerChar(s[i]))
  }

  /** `s.startsWith(prefix)` */
  predicate StartsWith(s: string, prefix: string)
  {
    |prefix| <= |s| && s[..|prefix|] == prefix
  }
}
