/** Ruby values as the settings code sees them: parsed YAML data, keyword
    arguments, command-line option values and the members of the settings
    struct. Only the behaviour of Ruby the settings code relies on is modelled:
    truthiness, `v[k]` with a string key, and `String#split` on one character. */
module RubyValue {

  /** A Ruby object. A hash key is modelled by its name alone: the code looks
      file data up by String keys and the option and transport tables by
      Symbol keys, and the model takes every key to be of the kind it is
      looked up by. A Symbol value (`YAML.load` makes one of a `:name`
      scalar) is kept apart from a String, since `split` and `==` tell them
      apart. */
  datatype Value =
    | Nil
    | Bool(b: bool)
    | Int(i: int)
    | Str(s: string)
    | Symbol(sym: string)
    | List(items: seq<Value>)
    | Hash(entries: map<string, Value>)
    | Handle(name: string)   // any other object without `[]` taking a string: the STDERR stream, a Float, a Date or a Time from YAML

  /** The Ruby exceptions that indexing or splitting a value of the wrong kind raises. */
  datatype Exception = NoMethodError | TypeError

  datatype Result<T, E> = Ok(value: T) | Err(error: E)

  datatype Option<T> = None | Some(value: T)

  /** Ruby truthiness: `nil` and `false` are the only falsy values. */
  predicate Truthy(v: Value) {
    v != Nil && v != Bool(false)
  }

  /** `Hash#[]`: the value stored under `k`, or `nil` when there is none. */
  function Lookup(h: map<string, Value>, k: string): (v: Value)
    ensures k in h ==> v == h[k]
    ensures k !in h ==> v == Nil
  {
    if k in h then h[k] else Nil
  }

  /** Does `sub` occur in `s` as a contiguous piece starting at index `i`? */
  predicate OccursAt(sub: string, s: string, i: int) {
    0 <= i && i + |sub| <= |s| && s[i..i + |sub|] == sub
  }

  /** Does `sub` occur in `s` as a contiguous piece? */
  predicate Occurs(sub: string, s: string) {
    exists i :: 0 <= i <= |s| && OccursAt(sub, s, i)
  }

  /** The values that answer `[]` with a string argument. */
  predicate Indexable(v: Value) {
    v.Hash? || v.Str? || v.Symbol?
  }

  /** What `v[k]` raises when `v` has no `[]` taking a string: an Integer or
      an Array wants an integer index, `true`, `nil` and other objects have no `[]`. */
  function IndexRaises(v: Value): (e: Exception)
    requires !Indexable(v)
    ensures e == TypeError <==> v.Int? || v.List?
  {
    if v.Int? || v.List? then TypeError else NoMethodError
  }

  /** `v[k]` for a string `k`: a Hash looks the key up, a String answers the
      key itself when it occurs in it (`String#[]`) and `nil` otherwise, and
      a Symbol answers as its name would (`Symbol#[]`). */
  function Index(v: Value, k: string): (r: Result<Value, Exception>)
    ensures r.Ok? <==> Indexable(v)
    ensures r.Err? ==> r.error == IndexRaises(v)
    ensures v.Hash? && k in v.entries ==> r.value == v.entries[k]
    ensures v.Hash? && k !in v.entries ==> r.value == Nil
    ensures v.Str? && Occurs(k, v.s) ==> r.value == Str(k)
    ensures v.Str? && !Occurs(k, v.s) ==> r.value == Nil
    ensures v.Symbol? && Occurs(k, v.sym) ==> r.value == Str(k)
    ensures v.Symbol? && !Occurs(k, v.sym) ==> r.value == Nil
  {
    match v
    case Hash(m) => Ok(Lookup(m, k))
    case Str(s) => Ok(if Occurs(k, s) then Str(k) else Nil)
    case Symbol(n) => Ok(if Occurs(k, n) then Str(k) else Nil)
    case _ => Err(IndexRaises(v))
  }

  /** `v[k]` on a value known to answer it. */
  function At(v: Value, k: string): Value
    requires Indexable(v)
  {
    Index(v, k).value
  }

  /** The pieces of `s` between occurrences of `sep`, empty pieces included:
      one more piece than `s` has separators. */
  function Fields(s: string, sep: char): (r: seq<string>)
    ensures |r| >= 1
    ensures forall i :: 0 <= i < |r| ==> sep !in r[i]
    decreases |s|
  {
    if s == [] then [""]
    else
      var rest := Fields(s[1..], sep);
      if s[0] == sep then [""] + rest
      else [[s[0]] + rest[0]] + rest[1..]
  }

  /** `parts.join(sep)`. */
  function Join(parts: seq<string>, sep: char): string
  {
    if |parts| == 0 then ""
    else if |parts| == 1 then parts[0]
    else parts[0] + [sep] + Join(parts[1..], sep)
  }

  /** Drops the empty pieces at the end of `parts`, as `String#split` does. */
  function DropTrailingEmpty(parts: seq<string>): (r: seq<string>)
    ensures r <= parts
    ensures r == [] || r[|r| - 1] != ""
    ensures forall i :: |r| <= i < |parts| ==> parts[i] == ""
  {
    if parts != [] && parts[|parts| - 1] == "" then DropTrailingEmpty(parts[..|parts| - 1])
    else parts
  }

  /** `s.split(sep)` for a one-character separator other than a space: the
      pieces between separators with the empty pieces at the end removed. */
  function Split(s: string, sep: char): (r: seq<string>)
    ensures r <= Fields(s, sep)
    ensures r == [] || r[|r| - 1] != ""
    ensures forall i :: 0 <= i < |r| ==> sep !in r[i]
    ensures forall i :: |r| <= i < |Fields(s, sep)| ==> Fields(s, sep)[i] == ""
  {
    DropTrailingEmpty(Fields(s, sep))
  }

  /** Joining the pieces again gives back the string: splitting loses nothing
      but the separators at the end. */
  lemma {:induction false} FieldsJoin(s: string, sep: char)
    ensures Join(Fields(s, sep), sep) == s
    decreases |s|
  {
    if s != [] {
      var rest := Fields(s[1..], sep);
      FieldsJoin(s[1..], sep);
      if s[0] == sep {
        assert Fields(s, sep) == [""] + rest;
        assert ([""] + rest)[1..] == rest;
      } else {
        var r := Fields(s, sep);
        assert r == [[s[0]] + rest[0]] + rest[1..];
        if |rest| == 1 {
          assert Join(r, sep) == [s[0]] + rest[0];
        } else {
          assert r[1..] == rest[1..];
          assert Join(rest, sep) == rest[0] + [sep] + Join(rest[1..], sep);
          assert Join(r, sep) == [s[0]] + rest[0] + [sep] + Join(rest[1..], sep);
        }
        assert s == [s[0]] + s[1..];
      }
    }
  }

  /** The string `s` is what `Split` keeps, joined, followed by the empty
      pieces it dropped, each worth one separator. */
  lemma SplitJoin(s: string, sep: char)
    ensures var r := Split(s, sep); s == Join(r + Fields(s, sep)[|r|..], sep)
  {
    FieldsJoin(s, sep);
    var f := Fields(s, sep);
    var r := Split(s, sep);
    assert f == r + f[|r|..];
  }

  /** A sequence of strings as a Ruby Array of Strings. */
  function StrList(parts: seq<string>): (v: Value)
    ensures v.List? && |v.items| == |parts|
    ensures forall i :: 0 <= i < |parts| ==> v.items[i] == Str(parts[i])
  {
    List(seq(|parts|, i requires 0 <= i < |parts| => Str(parts[i])))
  }
}
