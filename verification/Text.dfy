/** Go strings, which are sequences of bytes; a byte is written as the character of its value. */
module Text {
  import opened Options

  type Byte = c: char | (c as int) < 256 witness 'a'

  type Str = seq<Byte>

  /** strings.Cut at a single character: what is before and after its first occurrence. */
  function Cut(s: Str, sep: Byte): (r: Option<(Str, Str)>)
    ensures r.None? <==> sep !in s
    ensures r.Some? ==> s == r.value.0 + [sep] + r.value.1 && sep !in r.value.0
  {
    if s == [] then None
    else if s[0] == sep then Some(([], s[1..]))
    else
      var rest := Cut(s[1..], sep);
      if rest.None? then None else Some(([s[0]] + rest.value.0, rest.value.1))
  }

  /** A text with the separator in it splits in one way only. */
  lemma {:induction false} CutUnique(a: Str, sep: Byte, b: Str)
    requires sep !in a
    ensures Cut(a + [sep] + b, sep) == Some((a, b))
  {
    var s := a + [sep] + b;
    if a == [] {
      assert s[1..] == b;
    } else {
      CutUnique(a[1..], sep, b);
      assert s[1..] == a[1..] + [sep] + b;
      assert a == [a[0]] + a[1..];
    }
  }
}
