/** The parts of java.lang.String and java.lang.Character that the transport
    relies on: `indexOf`, `split` on a one-character separator, the narrowing
    cast of a read value to `char`, `equalsIgnoreCase` against ASCII text and
    string concatenation of a possibly-null reference. */
module JavaText {
  import opened Wrappers

  /** A Java `char`: one UTF-16 code unit. */
  type JChar = c: int | 0 <= c < 0x1_0000

  /** What `Reader.read()` returns: a code unit, or -1 at end of stream. */
  type ReadValue = c: int | -1 <= c < 0x1_0000

  /** The cast `(char) c`: keeps the low 16 bits, so -1 becomes U+FFFF. */
  function ToJChar(c: ReadValue): (u: JChar)
    ensures c >= 0 ==> u == c
    ensures (u - c) % 0x1_0000 == 0
  {
    if c == -1 then 0xFFFF else c
  }

  /** Index of the first `c` in `s`, or `|s|` when there is none. */
  function IndexOf(s: string, c: char): (i: nat)
    ensures i <= |s|
    ensures forall k :: 0 <= k < i ==> s[k] != c
    ensures i < |s| ==> s[i] == c
  {
    if |s| == 0 then 0
    else if s[0] == c then 0
    else 1 + IndexOf(s[1..], c)
  }

  lemma NoneBeforeIndexOf(s: string, c: char)
    ensures c !in s[..IndexOf(s, c)]
  {
    var i := IndexOf(s, c);
    assert forall k :: 0 <= k < i ==> s[..i][k] == s[k];
  }

  /** The pieces of `s` between separators, empty ones included
      (one more piece than there are separators). */
  function Segments(s: string, sep: char): (r: seq<string>)
    ensures |r| >= 1
    ensures r[0] == s[..IndexOf(s, sep)]
    ensures forall k :: 0 <= k < |r| ==> sep !in r[k]
    decreases |s|
  {
    var i := IndexOf(s, sep);
    if i == |s| then [s] else [s[..i]] + Segments(s[i + 1..], sep)
  }

  /** The pieces glued back together with the separator between them. */
  function Join(parts: seq<string>, sep: char): string
  {
    if |parts| == 0 then ""
    else if |parts| == 1 then parts[0]
    else parts[0] + [sep] + Join(parts[1..], sep)
  }

  /** Drops the empty strings at the end, as `split` with limit 0 does. */
  function DropTrailingEmpty(parts: seq<string>): (r: seq<string>)
    ensures |r| <= |parts| && r == parts[..|r|]
    ensures |r| > 0 ==> r[|r| - 1] != ""
    ensures forall k :: |r| <= k < |parts| ==> parts[k] == ""
  {
    if |parts| > 0 && parts[|parts| - 1] == "" then DropTrailingEmpty(parts[..|parts| - 1])
    else parts
  }

  /** `s.split(sep)` for a separator that is not a regex meta-character:
      a string without the separator comes back whole (even the empty string);
      otherwise every piece, less the trailing empty ones. */
  function Split(s: string, sep: char): seq<string>
  {
    if sep !in s then [s] else DropTrailingEmpty(Segments(s, sep))
  }

  /** Every character of `s` is `c` (vacuously true of ""). */
  predicate AllAre(s: string, c: char)
  {
    forall i :: 0 <= i < |s| ==> s[i] == c
  }

  /** Gluing a first piece back onto the rest of the pieces. */
  lemma JoinCons(head: string, rest: seq<string>, sep: char)
    requires |rest| >= 1
    ensures Join([head] + rest, sep) == head + [sep] + Join(rest, sep)
  {
    assert ([head] + rest)[1..] == rest;
  }

  /** A string is its text before the separator at `i`, that separator, and
      the text after it. */
  lemma SplitAt(s: string, i: nat, sep: char)
    requires i < |s| && s[i] == sep
    ensures s == s[..i] + [sep] + s[i + 1..]
  {
  }

  lemma {:induction false} JoinSegments(s: string, sep: char)
    ensures Join(Segments(s, sep), sep) == s
    decreases |s|
  {
    var i := IndexOf(s, sep);
    if i < |s| {
      var tail := s[i + 1..];
      var rest := Segments(tail, sep);
      assert Segments(s, sep) == [s[..i]] + rest;
      JoinSegments(tail, sep);
      JoinCons(s[..i], rest, sep);
      SplitAt(s, i, sep);
    }
  }

  lemma IndexOfAfter(a: string, sep: char, b: string)
    requires sep !in a
    ensures IndexOf(a + [sep] + b, sep) == |a|
  {
    var s := a + [sep] + b;
    assert s[|a|] == sep;
    assert forall k :: 0 <= k < |a| ==> s[k] == a[k];
  }

  lemma IndexOfAbsent(a: string, sep: char)
    requires sep !in a
    ensures IndexOf(a, sep) == |a|
  {
  }

  lemma {:induction false} SegmentsOfJoin(parts: seq<string>, sep: char)
    requires |parts| >= 1
    requires forall k :: 0 <= k < |parts| ==> sep !in parts[k]
    ensures Segments(Join(parts, sep), sep) == parts
    decreases |parts|
  {
    var head := parts[0];
    if |parts| == 1 {
      IndexOfAbsent(head, sep);
      assert Segments(head, sep) == [head];
    } else {
      var rest := parts[1..];
      assert forall k :: 0 <= k < |rest| ==> sep !in rest[k] by {
        forall k | 0 <= k < |rest|
          ensures sep !in rest[k]
        {
          assert rest[k] == parts[k + 1];
        }
      }
      var tail := Join(rest, sep);
      var s := head + [sep] + tail;
      assert Join(parts, sep) == s;
      IndexOfAfter(head, sep, tail);
      assert s[..|head|] == head;
      assert s[|head| + 1..] == tail;
      assert Segments(s, sep) == [head] + Segments(tail, sep);
      SegmentsOfJoin(rest, sep);
      assert parts == [head] + rest;
    }
  }

  predicate AllEmpty(parts: seq<string>)
  {
    forall k :: 0 <= k < |parts| ==> parts[k] == ""
  }

  lemma AllEmptyCons(head: string, rest: seq<string>)
    ensures AllEmpty([head] + rest) <==> head == "" && AllEmpty(rest)
  {
    var parts := [head] + rest;
    assert parts[0] == head;
    assert forall k :: 0 <= k < |rest| ==> parts[k + 1] == rest[k];
  }

  lemma AllAreCons(s: string, c: char)
    requires |s| > 0
    ensures AllAre(s, c) <==> s[0] == c && AllAre(s[1..], c)
  {
    assert forall k :: 0 <= k < |s| - 1 ==> s[1..][k] == s[k + 1];
  }

  lemma {:induction false} SegmentsAllEmpty(s: string, sep: char)
    ensures AllEmpty(Segments(s, sep)) <==> AllAre(s, sep)
    decreases |s|
  {
    var i := IndexOf(s, sep);
    if i == |s| {
      assert Segments(s, sep) == [s];
      AllEmptyCons(s, []);
      if |s| > 0 {
        AllAreCons(s, sep);
      }
    } else {
      var tail := s[i + 1..];
      var rest := Segments(tail, sep);
      assert Segments(s, sep) == [s[..i]] + rest;
      SegmentsAllEmpty(tail, sep);
      AllEmptyCons(s[..i], rest);
      AllAreCons(s, sep);
      if i > 0 {
        assert |s[..i]| == i;
      }
    }
  }

  /** The three parts of a concatenation are found again by slicing. */
  lemma Slices3<T>(a: seq<T>, b: seq<T>, c: seq<T>)
    ensures var s := a + b + c;
      && s[..|a|] == a
      && s[|a|..|a| + |b|] == b
      && s[|a| + |b|..] == c
      && s[|a|..|s| - |c|] == b
  {
  }

  /** A sequence is the concatenation of its slices at any two cut points. */
  lemma Recompose<T>(s: seq<T>, i: nat, j: nat)
    requires i <= j <= |s|
    ensures s == s[..i] + s[i..j] + s[j..]
  {
  }

  /** `split` yields no pieces at all exactly when the string is non-empty and made
      of separators only; this is why `parts[0]` can fail in the caller. */
  lemma SplitEmptyIff(s: string, sep: char)
    ensures |Split(s, sep)| == 0 <==> |s| > 0 && AllAre(s, sep)
  {
    if sep in s {
      var segs := Segments(s, sep);
      var r := DropTrailingEmpty(segs);
      SegmentsAllEmpty(s, sep);
      if |r| > 0 {
        assert r[|r| - 1] == segs[|r| - 1];
      }
    } else if |s| > 0 {
      assert s[0] != sep;
    }
  }

  /** When `split` yields pieces, the first one is the text before the first
      separator. */
  lemma SplitHead(s: string, sep: char)
    requires |Split(s, sep)| > 0
    ensures Split(s, sep)[0] == s[..IndexOf(s, sep)]
  {
    if sep !in s {
      IndexOfAbsent(s, sep);
    }
  }

  /** `Character.toUpperCase` followed by `toLowerCase`, restricted to what can
      equal an ASCII character: ASCII capitals, and the four non-ASCII code
      units that Java maps onto an ASCII letter (U+0130 and U+0131 onto i,
      U+017F onto s, U+212A onto k). */
  function FoldCase(c: JChar): (f: JChar)
    ensures 'A' as int <= c <= 'Z' as int ==> f == c + 32
    ensures f < 128 ==> c < 128 || c in {0x130, 0x131, 0x17F, 0x212A}
  {
    if 'A' as int <= c <= 'Z' as int then c + ('a' as int - 'A' as int)
    else if c == 0x130 || c == 0x131 then 'i' as int
    else if c == 0x17F then 's' as int
    else if c == 0x212A then 'k' as int
    else c
  }

  predicate IsAscii(s: string)
  {
    forall i :: 0 <= i < |s| ==> s[i] as int < 128
  }

  /** The UTF-16 code units of an ASCII string. */
  function Units(s: string): (u: seq<JChar>)
    requires IsAscii(s)
    ensures |u| == |s| && forall i :: 0 <= i < |s| ==> u[i] == s[i] as int
  {
    seq(|s|, i requires 0 <= i < |s| => s[i] as int)
  }

  /** `new String(units).equalsIgnoreCase(text)` for ASCII `text`: same length,
      and each pair of code units equal after case folding. */
  predicate EqualsIgnoreCase(units: seq<JChar>, text: string)
    requires IsAscii(text)
  {
    |units| == |text| && forall i :: 0 <= i < |units| ==> FoldCase(units[i]) == FoldCase(text[i] as int)
  }

  /** The code units `equalsIgnoreCase` matches against an ASCII character: the
      character itself, its other case if it is a letter, U+0130 and U+0131 for
      an i, U+017F for an s, and U+212A (Kelvin sign) for a k. */
  function AsciiCaseVariants(c: char): set<JChar>
    requires c as int < 128
  {
    var lower := if 'A' <= c <= 'Z' then c as int + 32 else c as int;
    var letter := 'a' as int <= lower <= 'z' as int;
    {lower}
    + (if letter then {lower - 32} else {})
    + (if lower == 'i' as int then {0x130, 0x131} else {})
    + (if lower == 's' as int then {0x17F} else {})
    + (if lower == 'k' as int then {0x212A} else {})
  }

  /** Case folding identifies a code unit with an ASCII character exactly when
      the unit is one of that character's case variants. */
  lemma FoldCaseMatchesVariants(u: JChar, c: char)
    requires c as int < 128
    ensures FoldCase(u) == FoldCase(c as int) <==> u in AsciiCaseVariants(c)
  {
    if 'A' <= c <= 'Z' {
      assert FoldCase(c as int) == c as int + 32;
    } else {
      assert FoldCase(c as int) == c as int;
    }
  }

  /** `equalsIgnoreCase` against ASCII text holds exactly when the lengths agree
      and every code unit is a case variant of the character at its place. */
  lemma EqualsIgnoreCaseIff(units: seq<JChar>, text: string)
    requires IsAscii(text)
    ensures EqualsIgnoreCase(units, text) <==>
      |units| == |text| && forall i :: 0 <= i < |units| ==> units[i] in AsciiCaseVariants(text[i])
  {
    if |units| == |text| {
      forall i | 0 <= i < |units|
        ensures FoldCase(units[i]) == FoldCase(text[i] as int) <==> units[i] in AsciiCaseVariants(text[i])
      {
        FoldCaseMatchesVariants(units[i], text[i]);
      }
    }
  }

  /** ASCII text equals itself ignoring case, and so does the text with any
      letters switched to the other case. */
  lemma CaseVariantsMatch(units: seq<JChar>, text: string)
    requires IsAscii(text) && |units| == |text|
    requires forall i :: 0 <= i < |text| ==>
      || units[i] == text[i] as int
      || ('A' <= text[i] <= 'Z' && units[i] == text[i] as int + 32)
      || ('a' <= text[i] <= 'z' && units[i] == text[i] as int - 32)
    ensures EqualsIgnoreCase(units, text)
    ensures EqualsIgnoreCase(Units(text), text)
  {
    EqualsIgnoreCaseIff(units, text);
    EqualsIgnoreCaseIff(Units(text), text);
  }

  /** String concatenation of a reference that may be null: null prints as "null". */
  function JavaString(s: Option<string>): (r: string)
    ensures s.Some? ==> r == s.value
    ensures s.None? ==> r == "null"
  {
    match s
    case Some(v) => v
    case None => "null"
  }
}
