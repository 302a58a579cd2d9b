/** The few pieces of JavaScript's value semantics that the application's logic
    depends on: `undefined`/`null` as an absent value, truthiness of strings,
    `String.prototype.split` with a one-character separator, indexing past the
    end of an array, `Array.prototype.find`, and `${x}` interpolation. */
module Js {

  /** A value that may be `undefined` or `null`. */
  datatype Option<+T> = None | Some(value: T)

  /** The two ways an asynchronous step or a `try` block ends. */
  datatype Result<+R, +E> = Success(value: R) | Failure(error: E)

  /** A thrown or rejected value: an `Error` instance, which has a `message`, or
      anything else (such as a FileReader's ProgressEvent). */
  datatype Thrown = ErrorObject(message: string) | NonError(description: string)

  /** JavaScript truthiness of a `string | null | undefined`: present and non-empty. */
  predicate Truthy(o: Option<string>) {
    o.Some? && o.value != ""
  }

  /** `s.startsWith(prefix)` */
  predicate StartsWith(s: string, prefix: string) {
    |prefix| <= |s| && s[..|prefix|] == prefix
  }

  /** `${x}` for `x: string | undefined`. */
  function Interpolate(o: Option<string>): (r: string)
    ensures o.Some? ==> r == o.value
    ensures o.None? ==> r == "undefined"
  {
    match o
    case Some(v) => v
    case None => "undefined"
  }

  /** `xs[i]`, which is `undefined` past the end of the array. */
  function At<T>(xs: seq<T>, i: nat): (r: Option<T>)
    ensures r.Some? <==> i < |xs|
    ensures r.Some? ==> r.value == xs[i]
  {
    if i < |xs| then Some(xs[i]) else None
  }

  /** `s.split(sep)` for a one-character separator: the maximal separator-free
      fields of `s`, in order. There is always at least one field, and `"".split(sep)`
      is `[""]`. */
  function Split(s: string, sep: char): (fields: seq<string>)
    ensures |fields| >= 1
    ensures forall i :: 0 <= i < |fields| ==> sep !in fields[i]
    ensures |fields| >= 2 <==> sep in s
    ensures forall i, c :: 0 <= i < |fields| && c in fields[i] ==> c in s
    decreases |s|
  {
    if s == [] then [""]
    else
      var rest := Split(s[1..], sep);
      assert forall c :: c in s[1..] ==> c in s;
      if s[0] == sep then [""] + rest
      else
        var fields := [[s[0]] + rest[0]] + rest[1..];
        assert forall i :: 1 <= i < |fields| ==> fields[i] == rest[i];
        fields
  }

  /** `fields.join(sep)`. Joining undoes `Split` (`JoinSplit`); splitting does not
      undo a join whose fields contain the separator. */
  function Join(fields: seq<string>, sep: char): string
    requires |fields| >= 1
  {
    if |fields| == 1 then fields[0]
    else fields[0] + [sep] + Join(fields[1..], sep)
  }

  /** Splitting loses nothing: joining the fields back gives the original string. */
  lemma {:induction false} JoinSplit(s: string, sep: char)
    ensures Join(Split(s, sep), sep) == s
    decreases |s|
  {
    if s != [] {
      JoinSplit(s[1..], sep);
      var rest := Split(s[1..], sep);
      if s[0] == sep {
        assert Split(s, sep)[1..] == rest;
      } else {
        var fields := Split(s, sep);
        assert fields[0] == [s[0]] + rest[0];
        assert fields[1..] == rest[1..];
        if |rest| == 1 {
          assert Join(fields, sep) == [s[0]] + rest[0];
        } else {
          assert Join(fields, sep) == [s[0]] + (rest[0] + [sep] + Join(rest[1..], sep));
        }
        assert s == [s[0]] + s[1..];
      }
    }
  }

  /** A string with no separator is a single field. */
  lemma {:induction false} SplitNoSeparator(a: string, sep: char)
    requires sep !in a
    ensures Split(a, sep) == [a]
    decreases |a|
  {
    if a != [] {
      SplitNoSeparator(a[1..], sep);
      assert a == [a[0]] + a[1..];
    }
  }

  /** A separator-free prefix followed by a separator is the first field, and what
      follows the separator is split on its own. */
  lemma {:induction false} SplitAtFirst(a: string, sep: char, b: string)
    requires sep !in a
    ensures Split(a + [sep] + b, sep) == [a] + Split(b, sep)
    decreases |a|
  {
    var s := a + [sep] + b;
    if a == [] {
      assert s[1..] == b;
    } else {
      assert s[1..] == a[1..] + [sep] + b;
      SplitAtFirst(a[1..], sep, b);
      assert a == [a[0]] + a[1..];
    }
  }

  /** The first field: everything before the first separator. */
  lemma FirstFieldIs(a: string, sep: char, rest: string)
    requires sep !in a
    requires rest == [] || rest[0] == sep
    ensures Split(a + rest, sep)[0] == a
  {
    if rest == [] {
      assert a + rest == a;
      SplitNoSeparator(a, sep);
    } else {
      assert a + rest == a + [sep] + rest[1..];
      SplitAtFirst(a, sep, rest[1..]);
    }
  }

  /** The second field (`split(sep)[1]`): what lies between the first separator and
      the next one, or the end of the string. */
  lemma SecondFieldIs(a: string, sep: char, d: string, rest: string)
    requires sep !in a && sep !in d
    requires rest == [] || rest[0] == sep
    ensures At(Split(a + [sep] + d + rest, sep), 1) == Some(d)
  {
    assert a + [sep] + d + rest == a + [sep] + (d + rest);
    SplitAtFirst(a, sep, d + rest);
    FirstFieldIs(d, sep, rest);
  }

  /** The first field is the text before the first separator: a prefix of the
      input that either is the whole input or is followed by the separator. */
  lemma {:induction false} FirstFieldIsPrefix(s: string, sep: char)
    ensures |Split(s, sep)[0]| <= |s|
    ensures s[..|Split(s, sep)[0]|] == Split(s, sep)[0]
    ensures |Split(s, sep)[0]| == |s| || s[|Split(s, sep)[0]|] == sep
    decreases |s|
  {
    if s != [] && s[0] != sep {
      FirstFieldIsPrefix(s[1..], sep);
      assert s == [s[0]] + s[1..];
    }
  }

  /** The index `xs.findIndex(p)` would report, as an `Option` instead of -1. */
  function FindIndex<T>(xs: seq<T>, p: T -> bool): (r: Option<nat>)
    ensures r.None? <==> forall j :: 0 <= j < |xs| ==> !p(xs[j])
    ensures r.Some? ==> r.value < |xs| && p(xs[r.value]) &&
                        forall j :: 0 <= j < r.value ==> !p(xs[j])
  {
    if xs == [] then None
    else if p(xs[0]) then Some(0)
    else
      var r := FindIndex(xs[1..], p);
      assert forall j :: 1 <= j < |xs| ==> xs[j] == xs[1..][j - 1];
      if r.Some? then Some(r.value + 1) else None
  }

  /** `xs.find(p)`: the first element satisfying `p`, or `undefined`. */
  function Find<T>(xs: seq<T>, p: T -> bool): (r: Option<T>)
    ensures r.None? <==> forall j :: 0 <= j < |xs| ==> !p(xs[j])
    ensures r.Some? ==> exists k :: 0 <= k < |xs| && xs[k] == r.value && p(xs[k]) &&
                                    forall j :: 0 <= j < k ==> !p(xs[j])
  {
    match FindIndex(xs, p)
    case Some(k) => Some(xs[k])
    case None => None
  }
}
