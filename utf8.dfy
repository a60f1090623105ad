/**
 * Well-formed UTF-8 as defined by Table 3-7 of The Unicode Standard, which
 * is the check Rust's `str::from_utf8` performs. Text is kept as its bytes:
 * a Rust `String` is a byte vector that is always well-formed UTF-8, and
 * `push_str` appends bytes.
 */
module Utf8 {

  type Byte = b: int | 0 <= b < 256

  predicate IsContinuation(b: Byte) {
    0x80 <= b <= 0xBF
  }

  /**
   * `n` when `s` holds at least `n` bytes, its second byte lies in
   * `[lo, hi]` and its bytes after the second up to the `n`-th are
   * continuation bytes; 0 otherwise.
   */
  function Tail(s: seq<Byte>, lo: Byte, hi: Byte, n: nat): (k: nat)
    requires 2 <= n <= 4
    ensures k == 0 || k == n
    ensures k == n ==> n <= |s|
  {
    if |s| >= n && lo <= s[1] <= hi && forall i :: 2 <= i < n ==> IsContinuation(s[i])
    then n else 0
  }

  /** The length of the well-formed sequence that starts `s`, or 0 when none does. */
  function SequenceLength(s: seq<Byte>): (n: nat)
    requires |s| > 0
    ensures n <= |s| && n <= 4
  {
    var b := s[0];
    if b <= 0x7F then 1
    else if 0xC2 <= b <= 0xDF then
      if |s| >= 2 && IsContinuation(s[1]) then 2 else 0
    else if b == 0xE0 then Tail(s, 0xA0, 0xBF, 3)
    else if 0xE1 <= b <= 0xEC || 0xEE <= b <= 0xEF then Tail(s, 0x80, 0xBF, 3)
    else if b == 0xED then Tail(s, 0x80, 0x9F, 3)
    else if b == 0xF0 then Tail(s, 0x90, 0xBF, 4)
    else if 0xF1 <= b <= 0xF3 then Tail(s, 0x80, 0xBF, 4)
    else if b == 0xF4 then Tail(s, 0x80, 0x8F, 4)
    else 0
  }

  /** `s` is a concatenation of well-formed sequences. */
  predicate Valid(s: seq<Byte>)
    ensures Valid(s) && |s| > 0 ==> !IsContinuation(s[0]) && s[0] != 0xC0 && s[0] != 0xC1 && s[0] < 0xF5
    decreases |s|
  {
    |s| == 0 || (SequenceLength(s) > 0 && Valid(s[SequenceLength(s)..]))
  }

  /** The first sequence is decided by its own bytes, whatever follows. */
  lemma SequenceLengthExtends(s: seq<Byte>, t: seq<Byte>)
    requires |s| > 0 && SequenceLength(s) > 0
    ensures SequenceLength(s + t) == SequenceLength(s)
  {
    var u := s + t;
    assert forall i :: 0 <= i < |s| ==> u[i] == s[i];
  }

  /** Text whose first sequence is well-formed and whose rest is valid is valid. */
  lemma ValidFromHead(s: seq<Byte>, n: nat)
    requires |s| > 0 && SequenceLength(s) == n > 0
    requires Valid(s[n..])
    ensures Valid(s)
  {
  }

  /** The first sequence of valid non-empty text is well-formed, and the rest is valid. */
  lemma ValidHead(s: seq<Byte>)
    requires Valid(s) && |s| > 0
    ensures SequenceLength(s) > 0 && Valid(s[SequenceLength(s)..])
  {
  }

  /** Appending to text keeps its well-formed first sequence in front. */
  lemma ConcatStep(a: seq<Byte>, b: seq<Byte>, n: nat)
    requires |a| > 0 && SequenceLength(a) == n > 0
    requires Valid(a[n..] + b)
    ensures Valid(a + b)
  {
    SequenceLengthExtends(a, b);
    assert (a + b)[n..] == a[n..] + b;
    ValidFromHead(a + b, n);
  }

  /** Well-formed text stays well-formed when more well-formed text is appended. */
  lemma {:induction false} ConcatValid(a: seq<Byte>, b: seq<Byte>)
    requires Valid(a) && Valid(b)
    ensures Valid(a + b)
  {
    if |a| == 0 {
      assert a + b == b;
    } else {
      ValidHead(a);
      var n := SequenceLength(a);
      ConcatValid(a[n..], b);
      ConcatStep(a, b, n);
    }
  }

  /**
   * The two bytes of U+00E9 are well-formed together and ill-formed apart:
   * well-formedness of a concatenation does not pass to its pieces.
   */
  lemma SplitCharacter()
    ensures Valid([0xC3, 0xA9])
    ensures !Valid([0xC3]) && !Valid([0xA9])
  {
    assert [0xC3, 0xA9][2..] == [];
  }
}
