/** The loosely typed option bag a Django management command receives
    (`**options`), with the few pieces of Python semantics the command
    relies on: `dict.get` with a default, truthiness, `str()` and
    `", ".join(...)`. */
module PyOptions {
  import opened Wrappers

  /** A value stored under an option key. `Flag` is a Python bool, `Text` a
      str, `Names` a list of str and `Null` is `None`. */
  datatype Value = Flag(b: bool) | Text(s: string) | Names(ns: seq<string>) | Null

  type Options = map<string, Value>

  /** `options.get(key, default)`: a key that is present wins even when its
      value is `None` or falsy. */
  function Get(opts: Options, key: string, default: Value): (v: Value)
    ensures key in opts ==> v == opts[key]
    ensures key !in opts ==> v == default
  {
    if key in opts then opts[key] else default
  }

  /** Python truthiness: `False`, `''`, `[]` and `None` are falsy. */
  predicate Truthy(v: Value) {
    match v
    case Flag(b) => b
    case Text(s) => s != ""
    case Names(ns) => ns != []
    case Null => false
  }

  /** `sep.join(parts)` over a list of strings. */
  function Join(sep: string, parts: seq<string>): string
    decreases |parts|
  {
    if |parts| == 0 then ""
    else if |parts| == 1 then parts[0]
    else parts[0] + sep + Join(sep, parts[1..])
  }

  /** The one-character strings a Python str iterates over. */
  function Chars(s: string): (cs: seq<string>)
    ensures |cs| == |s|
    ensures forall i :: 0 <= i < |s| ==> cs[i] == [s[i]]
  {
    seq(|s|, i requires 0 <= i < |s| => [s[i]])
  }

  /** `", ".join(v)`: defined for a list of strings and for a string (joined
      character by character); a bool or `None` is not iterable and the
      join raises a TypeError, modelled as `None`. */
  function JoinValue(sep: string, v: Value): (r: Option<string>)
    ensures r.None? <==> v.Flag? || v.Null?
  {
    match v
    case Names(ns) => Some(Join(sep, ns))
    case Text(s) => Some(Join(sep, Chars(s)))
    case _ => None
  }

  /** `str(v)` as `str.format` renders it. */
  function Str(v: Value): string {
    match v
    case Flag(b) => if b then "True" else "False"
    case Text(s) => s
    case Names(ns) => "[" + Join(", ", seq(|ns|, i requires 0 <= i < |ns| => "'" + ns[i] + "'")) + "]"
    case Null => "None"
  }

  /** `t` occurs in `s` starting at position `i`. */
  predicate OccursAt(s: string, t: string, i: nat) {
    i + |t| <= |s| && s[i..i + |t|] == t
  }

  /** Python's `t in s` for strings. */
  predicate Contains(s: string, t: string) {
    exists i: nat | i <= |s| :: OccursAt(s, t, i)
  }

  /** A string is found inside any concatenation that has it as a middle
      piece. */
  lemma ContainsMiddle(a: string, t: string, b: string)
    ensures Contains(a + t + b, t)
  {
    var s := a + t + b;
    assert s[|a|..|a| + |t|] == t;
    assert OccursAt(s, t, |a|);
  }

  /** Every string contains itself. */
  lemma ContainsSelf(s: string)
    ensures Contains(s, s)
  {
    assert s[0..|s|] == s;
    assert OccursAt(s, s, 0);
  }

  /** Prepending to a string keeps what it contains. */
  lemma ContainsPrepend(p: string, s: string, t: string)
    requires Contains(s, t)
    ensures Contains(p + s, t)
  {
    var i: nat :| i <= |s| && OccursAt(s, t, i);
    assert (p + s)[|p| + i..|p| + i + |t|] == s[i..i + |t|];
    assert OccursAt(p + s, t, |p| + i);
  }

  /** Every part of a join appears in the joined string. */
  lemma {:induction false} JoinContainsPart(sep: string, parts: seq<string>, k: nat)
    requires k < |parts|
    ensures Contains(Join(sep, parts), parts[k])
    decreases |parts|
  {
    if |parts| == 1 {
      ContainsSelf(parts[0]);
    } else if k == 0 {
      ContainsSelf(parts[0]);
      ContainsAppend(parts[0], parts[0], sep);
      ContainsAppend(parts[0] + sep, parts[0], Join(sep, parts[1..]));
    } else {
      JoinContainsPart(sep, parts[1..], k - 1);
      ContainsPrepend(parts[0] + sep, Join(sep, parts[1..]), parts[k]);
    }
  }

  /** Appending to a string keeps what it contains. */
  lemma ContainsAppend(s: string, t: string, u: string)
    requires Contains(s, t)
    ensures Contains(s + u, t)
  {
    var i: nat :| i <= |s| && OccursAt(s, t, i);
    assert (s + u)[i..i + |t|] == s[i..i + |t|];
    assert OccursAt(s + u, t, i);
  }

  /** Containment is transitive. */
  lemma ContainsTransitive(s: string, t: string, u: string)
    requires Contains(s, t) && Contains(t, u)
    ensures Contains(s, u)
  {
    var i: nat :| i <= |s| && OccursAt(s, t, i);
    var j: nat :| j <= |t| && OccursAt(t, u, j);
    assert forall m :: 0 <= m < |u| ==> s[i + j + m] == t[j + m] == u[m];
    assert s[i + j..i + j + |u|] == u;
    assert OccursAt(s, u, i + j);
  }
}
