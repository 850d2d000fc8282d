/** `timeToSeconds` (src/App.tsx): reads a lap time written as three colon-separated
    fields, minutes, seconds and thousandths, and yields 0 for any other shape.
    The value is kept in whole milliseconds: `m * 60 + s + f / 1000` seconds is
    `m * 60000 + s * 1000 + f` milliseconds. */
module TimeText {
  import opened Wrappers
  import opened Digits

  /** How many times `c` occurs in `s`. */
  function Occurrences(s: string, c: char): nat {
    if |s| == 0 then 0 else (if s[0] == c then 1 else 0) + Occurrences(s[1..], c)
  }

  /** `parts.join(sep)`. */
  function Join(parts: seq<string>, sep: char): string
    requires |parts| >= 1
  {
    if |parts| == 1 then parts[0] else parts[0] + [sep] + Join(parts[1..], sep)
  }

  /** `s.split(sep)` for a one-character separator. */
  function Split(s: string, sep: char): (parts: seq<string>)
    ensures |parts| == Occurrences(s, sep) + 1
    ensures forall i :: 0 <= i < |parts| ==> sep !in parts[i]
    ensures Join(parts, sep) == s
  {
    if |s| == 0 then [""]
    else
      var rest := Split(s[1..], sep);
      if s[0] == sep then
        assert ([""] + rest)[1..] == rest;
        [""] + rest
      else
        var parts := [[s[0]] + rest[0]] + rest[1..];
        assert Join(parts, sep) == [s[0]] + Join(rest, sep) by {
          if |rest| > 1 {
            assert parts[1..] == rest[1..];
          }
        }
        assert s == [s[0]] + s[1..];
        parts
  }

  lemma {:induction false} SplitWithoutSeparator(a: string, sep: char)
    requires sep !in a
    ensures Split(a, sep) == [a]
  {
    if |a| > 0 {
      SplitWithoutSeparator(a[1..], sep);
      assert [a[0]] + a[1..] == a;
    }
  }

  lemma {:induction false} SplitAtFirstSeparator(a: string, sep: char, rest: string)
    requires sep !in a
    ensures Split(a + [sep] + rest, sep) == [a] + Split(rest, sep)
  {
    var s := a + [sep] + rest;
    if |a| == 0 {
      assert s[1..] == rest;
    } else {
      assert s[1..] == a[1..] + [sep] + rest;
      SplitAtFirstSeparator(a[1..], sep, rest);
      assert [a[0]] + a[1..] == a;
    }
  }

  /** Splitting undoes joining when no part contains the separator. */
  lemma {:induction false} SplitJoin(parts: seq<string>, sep: char)
    requires |parts| >= 1
    requires forall i :: 0 <= i < |parts| ==> sep !in parts[i]
    ensures Split(Join(parts, sep), sep) == parts
  {
    if |parts| == 1 {
      SplitWithoutSeparator(parts[0], sep);
    } else {
      SplitJoin(parts[1..], sep);
      SplitAtFirstSeparator(parts[0], sep, Join(parts[1..], sep));
    }
  }

  const MillisPerSecond: nat := 1000
  const MillisPerMinute: nat := 60000

  /** `minutes * 60 + seconds + thousandths / 1000` seconds, in milliseconds. */
  function FieldsToMillis(minutes: nat, seconds: nat, thousandths: nat): (ms: nat)
    ensures ms as real / 1000.0 == minutes as real * 60.0 + seconds as real + thousandths as real / 1000.0
  {
    minutes * MillisPerMinute + seconds * MillisPerSecond + thousandths
  }

  /** `None` stands for a three-field text with a field that is not all digits, where
      `Number` would give NaN or a fraction; those readings are not modelled. */
  function TimeToMillis(time: string): (ms: Option<nat>)
    ensures Occurrences(time, ':') != 2 ==> ms == Some(0)
  {
    var parts := Split(time, ':');
    if |parts| == 3 then
      if AllDigits(parts[0]) && AllDigits(parts[1]) && AllDigits(parts[2]) then
        Some(FieldsToMillis(Value(parts[0]), Value(parts[1]), Value(parts[2])))
      else None
    else Some(0)
  }

  lemma DigitsHaveNoColon(x: string)
    requires AllDigits(x)
    ensures ':' !in x
  {
  }

  lemma JoinThree(a: string, b: string, c: string, sep: char)
    ensures Join([a, b, c], sep) == a + [sep] + b + [sep] + c
  {
    assert [a, b, c][1..] == [b, c];
    assert [b, c][1..] == [c];
    assert Join([b, c], sep) == b + [sep] + c;
    assert Join([a, b, c], sep) == a + [sep] + (b + [sep] + c);
  }

  /** Three digit fields are read as minutes, seconds and thousandths of a second. */
  lemma ThreeFieldTime(m: string, s: string, f: string)
    requires AllDigits(m) && AllDigits(s) && AllDigits(f)
    ensures TimeToMillis(m + ":" + s + ":" + f) == Some(FieldsToMillis(Value(m), Value(s), Value(f)))
  {
    DigitsHaveNoColon(m);
    DigitsHaveNoColon(s);
    DigitsHaveNoColon(f);
    var time := m + ":" + s + ":" + f;
    JoinThree(m, s, f, ':');
    assert time == Join([m, s, f], ':');
    SplitJoin([m, s, f], ':');
    assert Split(time, ':') == [m, s, f];
  }

  /** A time written `M:SS.mmm`, the shape `secondsToTime` produces, has a single colon, so it reads as 0. */
  lemma DottedLapRecordReadsAsZero(m: string, rest: string)
    requires ':' !in m && ':' !in rest
    ensures TimeToMillis(m + ":" + rest) == Some(0)
  {
    SplitJoin([m, rest], ':');
    assert Join([m, rest], ':') == m + ":" + rest by {
      assert [m, rest][1..] == [rest];
    }
  }
}
