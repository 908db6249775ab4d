/** `String.prototype.split` on one character and `Array.prototype.join`. */
module Text {

  /** `s.split(sep)` for a one-character separator: the pieces between separators, at least one. */
  function Split(s: string, sep: char): (r: seq<string>)
    ensures |r| >= 1
    ensures forall k :: 0 <= k < |r| ==> sep !in r[k]
    decreases |s|
  {
    if s == [] then [""]
    else
      var rest := Split(s[1..], sep);
      if s[0] == sep then [""] + rest
      else [[s[0]] + rest[0]] + rest[1..]
  }

  /** `lines.join(sep)`: the pieces with one separator between neighbours and none at the end. */
  function Join(lines: seq<string>, sep: string): (r: string)
  {
    if lines == [] then ""
    else if |lines| == 1 then lines[0]
    else lines[0] + sep + Join(lines[1..], sep)
  }

  /** The first piece of a split is the text before the first separator, or all of it. */
  lemma {:induction false} SplitHead(s: string, sep: char)
    ensures sep !in s ==> Split(s, sep) == [s]
    ensures sep in s ==> exists i :: 0 <= i < |s| && s[i] == sep && sep !in s[..i] && Split(s, sep)[0] == s[..i]
    decreases |s|
  {
    if s != [] {
      SplitHead(s[1..], sep);
      if s[0] == sep {
        assert s[..0] == [];
      } else if sep in s[1..] {
        var i :| 0 <= i < |s[1..]| && s[1..][i] == sep && sep !in s[1..][..i] && Split(s[1..], sep)[0] == s[1..][..i];
        assert s[..i + 1] == [s[0]] + s[1..][..i];
      } else {
        assert s == [s[0]] + s[1..];
      }
    }
  }

  /** Splitting a separator-free piece followed by the separator peels off exactly that piece. */
  lemma {:induction false} SplitAfterPiece(a: string, sep: char, b: string)
    requires sep !in a
    ensures Split(a + [sep] + b, sep) == [a] + Split(b, sep)
    decreases |a|
  {
    if a == [] {
      assert a + [sep] + b == [sep] + b;
      assert ([sep] + b)[1..] == b;
    } else {
      assert (a + [sep] + b)[1..] == a[1..] + [sep] + b;
      SplitAfterPiece(a[1..], sep, b);
      assert [a[0]] + a[1..] == a;
    }
  }

  /** Joining separator-free pieces and splitting again gives the pieces back. */
  lemma {:induction false} SplitJoin(lines: seq<string>, sep: char)
    requires |lines| >= 1
    requires forall k :: 0 <= k < |lines| ==> sep !in lines[k]
    ensures Split(Join(lines, [sep]), sep) == lines
  {
    if |lines| == 1 {
      SplitHead(lines[0], sep);
    } else {
      SplitJoin(lines[1..], sep);
      SplitAfterPiece(lines[0], sep, Join(lines[1..], [sep]));
      assert lines == [lines[0]] + lines[1..];
    }
  }
}
