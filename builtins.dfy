/** The parts of Python's built-in behaviour that the scripts rely on: indexing a
    row dict, str.strip, str.split, str.lower and int() applied to a string, and
    the exceptions these raise. An exception becomes an Err value; the first one
    raised ends the script, so every fold below stops at the first Err. */
module Builtins {

  /** The exceptions the aggregation code can raise on bad input. */
  datatype Error =
    | KeyError(key: string)        // row[key] on a row without that column
    | ValueError(literal: string)  // int(text) on text that is not an integer literal
    | IndexError                   // lines[0] of an empty file, values[i] past a short line
    | ZeroDivisionError            // runs / (balls / 6) with no legal balls

  datatype Result<+T> = Ok(value: T) | Err(error: Error) {
    predicate IsFailure() { Err? }
    function PropagateFailure<U>(): Result<U> requires Err? { Err(error) }
    function Extract(): T requires Ok? { value }
  }

  datatype Option<+T> = None | Some(value: T)

  /** One row of a table: column name to field text. */
  type Record = map<string, string>

  /** row[key]: a missing column raises KeyError. */
  function Field(row: Record, key: string): Result<string> {
    if key in row then Ok(row[key]) else Err(KeyError(key))
  }

  /** row.get(key, default) */
  function FieldOr(row: Record, key: string, default: string): string {
    if key in row then row[key] else default
  }

  // ---------------------------------------------------------------------------
  // str.strip()

  /** The characters str.strip() removes (str.isspace). */
  predicate IsSpace(c: char) {
    || c == ' '
    || ('\U{9}' <= c <= '\U{D}')
    || ('\U{1C}' <= c <= '\U{1F}')
    || c == '\U{85}' || c == '\U{A0}' || c == '\U{1680}'
    || ('\U{2000}' <= c <= '\U{200A}')
    || c == '\U{2028}' || c == '\U{2029}' || c == '\U{202F}' || c == '\U{205F}' || c == '\U{3000}'
  }

  ghost predicate AllSpace(s: string) {
    forall i :: 0 <= i < |s| ==> IsSpace(s[i])
  }

  function StripStart(s: string): (r: string)
    ensures |r| <= |s| && r == s[|s| - |r|..] && AllSpace(s[..|s| - |r|])
    ensures r == [] || !IsSpace(r[0])
  {
    if |s| > 0 && IsSpace(s[0]) then StripStart(s[1..]) else s
  }

  function StripEnd(s: string): (r: string)
    ensures |r| <= |s| && r == s[..|r|] && AllSpace(s[|r|..])
    ensures r == [] || !IsSpace(r[|r| - 1])
  {
    if |s| > 0 && IsSpace(s[|s| - 1]) then StripEnd(s[..|s| - 1]) else s
  }

  /** str.strip(): what lies between the leading and the trailing whitespace. */
  function Strip(s: string): (r: string)
    ensures |r| <= |s|
    ensures r == [] || (!IsSpace(r[0]) && !IsSpace(r[|r| - 1]))
  {
    StripEnd(StripStart(s))
  }

  /** Strip removes only whitespace, and only from the two ends. */
  lemma StripInfix(s: string)
    ensures var r := Strip(s);
      exists i :: 0 <= i <= |s| - |r| && r == s[i..i + |r|] && AllSpace(s[..i]) && AllSpace(s[i + |r|..])
  {
    var t := StripStart(s);
    var r := StripEnd(t);
    var i := |s| - |t|;
    assert r == s[i..i + |r|] by {
      assert t == s[i..];
      assert r == t[..|r|];
    }
    assert s[i + |r|..] == t[|r|..] by {
      assert t == s[i..];
    }
  }

  /** Text with neither leading nor trailing whitespace is its own strip. */
  lemma StripTrimmed(s: string)
    requires s == [] || (!IsSpace(s[0]) && !IsSpace(s[|s| - 1]))
    ensures Strip(s) == s
  {
  }

  // ---------------------------------------------------------------------------
  // str.lower()

  function LowerChar(c: char): char {
    if 'A' <= c <= 'Z' then (c as int + 32) as char else c
  }

  /** str.lower() on ASCII letters; other characters are kept. */
  function Lower(s: string): string {
    seq(|s|, i requires 0 <= i < |s| => LowerChar(s[i]))
  }

  // ---------------------------------------------------------------------------
  // str.split(sep)

  /** str.split(sep) for a one-character separator: the fields between separators. */
  function Split(s: string, sep: char): (r: seq<string>)
    ensures |r| >= 1
    ensures forall i :: 0 <= i < |r| ==> sep !in r[i]
  {
    if s == [] then [[]]
    else
      var rest := Split(s[1..], sep);
      if s[0] == sep then [[]] + rest else [[s[0]] + rest[0]] + rest[1..]
  }

  /** sep.join(fields) */
  function Join(fields: seq<string>, sep: char): string
    requires |fields| >= 1
  {
    if |fields| == 1 then fields[0] else fields[0] + [sep] + Join(fields[1..], sep)
  }

  lemma {:induction false} JoinConsHead(c: char, fields: seq<string>, sep: char)
    requires |fields| >= 1
    ensures Join([[c] + fields[0]] + fields[1..], sep) == [c] + Join(fields, sep)
  {
    var g := [[c] + fields[0]] + fields[1..];
    assert g[1..] == fields[1..];
  }

  /** Joining the fields of a split gives the text back. */
  lemma {:induction false} JoinSplit(s: string, sep: char)
    ensures Join(Split(s, sep), sep) == s
  {
    if s != [] {
      var rest := Split(s[1..], sep);
      JoinSplit(s[1..], sep);
      if s[0] == sep {
        assert ([[]] + rest)[1..] == rest;
      } else {
        JoinConsHead(s[0], rest, sep);
      }
    }
  }

  lemma {:induction false} SplitPrefix(a: string, t: string, sep: char)
    requires sep !in a
    ensures Split(a + t, sep) == [a + Split(t, sep)[0]] + Split(t, sep)[1..]
  {
    if a != [] {
      var st := Split(t, sep);
      assert (a + t)[0] == a[0] && (a + t)[1..] == a[1..] + t;
      SplitPrefix(a[1..], t, sep);
      var rest := Split(a[1..] + t, sep);
      assert rest == [a[1..] + st[0]] + st[1..];
      assert rest[0] == a[1..] + st[0] && rest[1..] == st[1..];
      assert [a[0]] + (a[1..] + st[0]) == a + st[0];
      assert a[0] in a;
      assert Split(a + t, sep) == [[a[0]] + rest[0]] + rest[1..];
    } else {
      var st := Split(t, sep);
      assert a + t == t && a + st[0] == st[0];
      assert [st[0]] + st[1..] == st;
    }
  }

  /** Splitting the join of separator-free fields gives the fields back. */
  lemma {:induction false} SplitJoin(fields: seq<string>, sep: char)
    requires |fields| >= 1
    requires forall i :: 0 <= i < |fields| ==> sep !in fields[i]
    ensures Split(Join(fields, sep), sep) == fields
  {
    if |fields| == 1 {
      SplitPrefix(fields[0], [], sep);
      assert fields[0] + [] == fields[0];
    } else {
      var tail := Join(fields[1..], sep);
      SplitJoin(fields[1..], sep);
      assert Join(fields, sep) == fields[0] + ([sep] + tail);
      SplitPrefix(fields[0], [sep] + tail, sep);
      assert ([sep] + tail)[1..] == tail;
      var st := Split([sep] + tail, sep);
      assert st == [[]] + fields[1..];
      assert st[0] == [] && st[1..] == fields[1..];
      assert fields[0] + st[0] == fields[0];
      assert [fields[0]] + fields[1..] == fields;
    }
  }

  // ---------------------------------------------------------------------------
  // int(text)

  predicate IsDigit(c: char) { '0' <= c <= '9' }

  /** The body of a base-10 literal: digits, with single underscores allowed between two digits. */
  predicate IsDigitRun(s: string) {
    && |s| > 0 && IsDigit(s[0]) && IsDigit(s[|s| - 1])
    && (forall i :: 0 <= i < |s| ==> IsDigit(s[i]) || s[i] == '_')
    && (forall i :: 0 <= i < |s| - 1 ==> IsDigit(s[i]) || IsDigit(s[i + 1]))
  }

  /** The number the digits of s spell, underscores skipped. */
  function DigitsValue(s: string): nat {
    if s == [] then 0
    else if IsDigit(s[|s| - 1]) then 10 * DigitsValue(s[..|s| - 1]) + (s[|s| - 1] as int - '0' as int)
    else DigitsValue(s[..|s| - 1])
  }

  /** int(text): optional surrounding whitespace, an optional sign, then a digit run. */
  function ParseInt(s: string): Result<int> {
    var t := Strip(s);
    if |t| > 0 && (t[0] == '+' || t[0] == '-') && IsDigitRun(t[1..]) then
      Ok(if t[0] == '-' then -(DigitsValue(t[1..]) as int) else DigitsValue(t[1..]))
    else if IsDigitRun(t) then
      Ok(DigitsValue(t))
    else
      Err(ValueError(s))
  }

  /** str(n) for n >= 0. */
  function Digits(n: nat): (r: string)
    ensures |r| > 0 && forall i :: 0 <= i < |r| ==> IsDigit(r[i])
  {
    if n < 10 then [('0' as int + n) as char] else Digits(n / 10) + [('0' as int + n % 10) as char]
  }

  /** str(n) */
  function Decimal(n: int): string {
    if n < 0 then "-" + Digits(-n) else Digits(n)
  }

  lemma {:induction false} DigitsValueOfDigits(n: nat)
    ensures DigitsValue(Digits(n)) == n
  {
    if n >= 10 {
      var d := Digits(n);
      assert d[..|d| - 1] == Digits(n / 10);
      DigitsValueOfDigits(n / 10);
    }
  }

  lemma DigitsAreRun(m: nat)
    ensures IsDigitRun(Digits(m))
  {
  }

  lemma ParseIntOfRun(s: string)
    requires IsDigitRun(s)
    ensures ParseInt(s) == Ok(DigitsValue(s))
  {
    assert !IsSpace(s[0]) && !IsSpace(s[|s| - 1]);
    StripTrimmed(s);
    assert Strip(s) == s;
    assert !(s[0] == '+' || s[0] == '-');
  }

  lemma ParseIntOfNegativeRun(s: string)
    requires |s| > 1 && s[0] == '-' && IsDigitRun(s[1..])
    ensures ParseInt(s) == Ok(-(DigitsValue(s[1..]) as int))
  {
    assert s[|s| - 1] == s[1..][|s| - 2];
    StripTrimmed(s);
  }

  /** int(str(n)) == n: parsing inverts printing. */
  lemma ParseIntDecimal(n: int)
    ensures ParseInt(Decimal(n)) == Ok(n)
  {
    var m := if n < 0 then -n else n;
    DigitsValueOfDigits(m);
    DigitsAreRun(m);
    if n < 0 {
      var s := Decimal(n);
      assert s[1..] == Digits(m);
      ParseIntOfNegativeRun(s);
    } else {
      ParseIntOfRun(Digits(m));
    }
  }

  // ---------------------------------------------------------------------------
  // Row loops

  /** A row loop that keeps the Some results of f in order; the first Err stops it. */
  function Collect<A, B>(xs: seq<A>, f: A -> Result<Option<B>>): Result<seq<B>> {
    if xs == [] then Ok([])
    else match f(xs[0])
      case Err(e) => Err(e)
      case Ok(None) => Collect(xs[1..], f)
      case Ok(Some(y)) =>
        match Collect(xs[1..], f)
        case Err(e) => Err(e)
        case Ok(ys) => Ok([y] + ys)
  }

  /** The rows kept so far followed by the outcome of the rest of the loop. */
  function Prepend<T>(xs: seq<T>, r: Result<seq<T>>): Result<seq<T>> {
    match r
    case Ok(ys) => Ok(xs + ys)
    case Err(e) => Err(e)
  }

  lemma PrependAssoc<T>(a: seq<T>, b: seq<T>, r: Result<seq<T>>)
    ensures Prepend(a, Prepend(b, r)) == Prepend(a + b, r)
  {
    if r.Ok? {
      assert a + (b + r.value) == (a + b) + r.value;
    }
  }

  lemma PrependNothing<T>(r: Result<seq<T>>)
    ensures Prepend([], r) == r
  {
    if r.Ok? {
      assert [] + r.value == r.value;
    }
  }

  /** One step of a row loop: the row's own outcome, then the rest. */
  lemma CollectStep<A, B>(xs: seq<A>, f: A -> Result<Option<B>>)
    requires xs != [] && f(xs[0]).Ok?
    ensures Collect(xs, f) == Prepend(if f(xs[0]).value.Some? then [f(xs[0]).value.value] else [], Collect(xs[1..], f))
  {
    PrependNothing(Collect(xs[1..], f));
  }

  /** A loop over two row sequences in turn is the loop over their concatenation. */
  lemma {:induction false} CollectAppend<A, B>(xs: seq<A>, ys: seq<A>, f: A -> Result<Option<B>>)
    ensures Collect(xs + ys, f) ==
      match Collect(xs, f)
      case Err(e) => Err(e)
      case Ok(zs) => Prepend(zs, Collect(ys, f))
  {
    if xs == [] {
      assert xs + ys == ys;
      PrependNothing(Collect(ys, f));
    } else {
      assert (xs + ys)[0] == xs[0] && (xs + ys)[1..] == xs[1..] + ys;
      CollectAppend(xs[1..], ys, f);
      if f(xs[0]).Ok? && f(xs[0]).value.Some? && Collect(xs[1..], f).Ok? {
        PrependAssoc([f(xs[0]).value.value], Collect(xs[1..], f).value, Collect(ys, f));
      }
    }
  }

  /** An element the loop skips changes nothing. */
  lemma CollectSkip<A, B>(xs: seq<A>, x: A, ys: seq<A>, f: A -> Result<Option<B>>)
    requires f(x) == Ok(None)
    ensures Collect(xs + [x] + ys, f) == Collect(xs + ys, f)
  {
    CollectAppend(xs + [x], ys, f);
    CollectAppend(xs, [x], f);
    CollectAppend(xs, ys, f);
    assert Collect([x], f) == Ok([]) by {
      assert [x][1..] == [];
    }
    if Collect(xs, f).Ok? {
      assert Collect(xs, f).value + [] == Collect(xs, f).value;
    }
  }

  /** `for x in xs: ... out.append(y)`, keeping the Some results of f. */
  method CollectLoop<A, B>(xs: seq<A>, f: A -> Result<Option<B>>) returns (r: Result<seq<B>>)
    ensures r == Collect(xs, f)
  {
    var out: seq<B> := [];
    PrependNothing(Collect(xs, f));
    var i := 0;
    while i < |xs|
      invariant 0 <= i <= |xs|
      invariant Collect(xs, f) == Prepend(out, Collect(xs[i..], f))
    {
      assert xs[i..][0] == xs[i] && xs[i..][1..] == xs[i + 1..];
      var step := f(xs[i]);
      if step.Err? {
        return Err(step.error);
      }
      CollectStep(xs[i..], f);
      if step.value.Some? {
        PrependAssoc(out, [step.value.value], Collect(xs[i + 1..], f));
        out := out + [step.value.value];
      } else {
        PrependAssoc(out, [], Collect(xs[i + 1..], f));
        assert out + [] == out;
      }
      i := i + 1;
    }
    assert out + [] == out;
    return Ok(out);
  }

  /** What a completed row loop holds: exactly the values some row gives. */
  lemma {:induction false} CollectMember<A, B>(xs: seq<A>, f: A -> Result<Option<B>>, y: B)
    requires Collect(xs, f).Ok?
    ensures y in Collect(xs, f).value <==> exists i :: 0 <= i < |xs| && f(xs[i]) == Ok(Some(y))
  {
    if xs != [] {
      CollectMember(xs[1..], f, y);
      if exists i :: 0 <= i < |xs[1..]| && f(xs[1..][i]) == Ok(Some(y)) {
        var i :| 0 <= i < |xs[1..]| && f(xs[1..][i]) == Ok(Some(y));
        assert xs[i + 1] == xs[1..][i];
      }
      if exists i :: 0 <= i < |xs| && f(xs[i]) == Ok(Some(y)) {
        var i :| 0 <= i < |xs| && f(xs[i]) == Ok(Some(y));
        if i > 0 {
          assert xs[1..][i - 1] == xs[i];
        }
      }
    }
  }

  /** A row loop fails exactly when some row raises, and then with the first row's error. */
  lemma {:induction false} CollectErr<A, B>(xs: seq<A>, f: A -> Result<Option<B>>)
    ensures Collect(xs, f).Err? <==> exists i :: 0 <= i < |xs| && f(xs[i]).Err?
    ensures Collect(xs, f).Err? ==>
      exists i :: 0 <= i < |xs| && f(xs[i]) == Err(Collect(xs, f).error) && forall j :: 0 <= j < i ==> f(xs[j]).Ok?
  {
    if xs != [] {
      CollectErr(xs[1..], f);
      if f(xs[0]).Ok? && Collect(xs, f).Err? {
        var i :| 0 <= i < |xs[1..]| && f(xs[1..][i]) == Err(Collect(xs, f).error) && forall j :: 0 <= j < i ==> f(xs[1..][j]).Ok?;
        assert f(xs[i + 1]) == Err(Collect(xs, f).error);
        assert forall j :: 0 <= j < i + 1 ==> f(xs[j]).Ok? by {
          forall j | 0 <= j < i + 1 ensures f(xs[j]).Ok? {
            if j > 0 { assert xs[j] == xs[1..][j - 1]; }
          }
        }
      }
      if Collect(xs, f).Ok? {
        forall i | 0 <= i < |xs| ensures f(xs[i]).Ok? {
          if i > 0 { assert xs[i] == xs[1..][i - 1]; }
        }
      }
    }
  }

  /** A loop reading rows with g ends as one with f does when it completes and
      g agrees with f wherever f succeeds. */
  lemma {:induction false} CollectAgree<A, B>(xs: seq<A>, f: A -> Result<Option<B>>, g: A -> Result<Option<B>>)
    requires Collect(xs, f).Ok?
    requires forall i :: 0 <= i < |xs| && f(xs[i]).Ok? ==> g(xs[i]) == f(xs[i])
    ensures Collect(xs, g) == Collect(xs, f)
  {
    if xs != [] {
      assert forall i :: 0 <= i < |xs[1..]| ==> xs[1..][i] == xs[i + 1];
      CollectAgree(xs[1..], f, g);
    }
  }

  /** A loop whose f never skips keeps one result per row, in row order. */
  lemma {:induction false} CollectMap<A, B>(xs: seq<A>, f: A -> Result<Option<B>>)
    requires forall i :: 0 <= i < |xs| ==> f(xs[i]).Ok? ==> f(xs[i]).value.Some?
    requires Collect(xs, f).Ok?
    ensures |Collect(xs, f).value| == |xs|
    ensures forall i :: 0 <= i < |xs| ==> f(xs[i]) == Ok(Some(Collect(xs, f).value[i]))
  {
    if xs != [] {
      assert forall i :: 0 <= i < |xs[1..]| ==> xs[1..][i] == xs[i + 1];
      CollectMap(xs[1..], f);
    }
  }
}
