/** Byte strings and the field splitting the Git and hook parsers share. */
module Bytes {
  import opened Prelude

  /** One byte, written as the character with that code. */
  type Byte = c: char | c as int < 256 witness 'a'

  type Bytes = seq<Byte>

  const NUL: Byte := '\0'

  /** Every field between separators; n separators give n + 1 fields. */
  function Split(bytes: Bytes, separator: Byte): (fields: seq<Bytes>)
    ensures |fields| > 0
    ensures forall f <- fields :: separator !in f
  {
    if bytes == [] then [[]]
    else
      var rest := Split(bytes[1..], separator);
      if bytes[0] == separator then [[]] + rest else [[bytes[0]] + rest[0]] + rest[1..]
  }

  /** `fields` with a separator between neighbours. */
  function Join(fields: seq<Bytes>, separator: Byte): Bytes
    requires |fields| > 0
  {
    if |fields| == 1 then fields[0] else fields[0] + [separator] + Join(fields[1..], separator)
  }

  /** `fields`, each followed by the separator. */
  function Terminated(fields: seq<Bytes>, separator: Byte): Bytes {
    if fields == [] then [] else fields[0] + [separator] + Terminated(fields[1..], separator)
  }

  lemma {:induction false} JoinUndoesSplit(bytes: Bytes, separator: Byte)
    ensures Join(Split(bytes, separator), separator) == bytes
  {
    if bytes != [] {
      JoinUndoesSplit(bytes[1..], separator);
      var rest := Split(bytes[1..], separator);
      if bytes[0] == separator { assert ([[]] + rest)[1..] == rest; }
    }
  }

  lemma {:induction false} SplitOneField(field: Bytes, rest: Bytes, separator: Byte)
    requires separator !in field
    ensures Split(field + [separator] + rest, separator) == [field] + Split(rest, separator)
    ensures Split(field, separator) == [field]
  {
    var all := field + [separator] + rest;
    if field == [] {
      assert all[1..] == rest;
    } else {
      assert all[1..] == field[1..] + [separator] + rest;
      SplitOneField(field[1..], rest, separator);
      assert all[0] == field[0] && field[0] in field;
      assert [field[0]] + field[1..] == field;
    }
  }

  lemma {:induction false} SplitUndoesTerminated(fields: seq<Bytes>, rest: Bytes, separator: Byte)
    requires forall f <- fields :: separator !in f
    ensures Split(Terminated(fields, separator) + rest, separator) == fields + Split(rest, separator)
  {
    hide Split;
    if fields != [] {
      assert separator !in fields[0];
      SplitUndoesTerminated(fields[1..], rest, separator);
      SplitOneField(fields[0], Terminated(fields[1..], separator) + rest, separator);
      assert Terminated(fields, separator) + rest == fields[0] + [separator] + (Terminated(fields[1..], separator) + rest);
    } else {
      assert Terminated(fields, separator) + rest == rest;
    }
  }

  lemma {:induction false} SplitUndoesJoin(fields: seq<Bytes>, separator: Byte)
    requires |fields| > 0 && forall f <- fields :: separator !in f
    ensures Split(Join(fields, separator), separator) == fields
  {
    if |fields| == 1 {
      SplitOneField(fields[0], [], separator);
    } else {
      SplitUndoesJoin(fields[1..], separator);
      SplitOneField(fields[0], Join(fields[1..], separator), separator);
    }
  }

  predicate EndsWith(bytes: Bytes, suffix: Bytes) {
    |suffix| <= |bytes| && bytes[|bytes| - |suffix|..] == suffix
  }

  /** Where the separator first stands. */
  function Index(bytes: string, separator: char): (at: Option<nat>)
    ensures at.Some? ==> at.value < |bytes| && bytes[at.value] == separator && separator !in bytes[..at.value]
    ensures at.None? ==> separator !in bytes
  {
    if bytes == [] then None
    else if bytes[0] == separator then Some(0)
    else
      var rest := Index(bytes[1..], separator);
      if rest.None? then None else
        assert bytes[..rest.value + 1] == [bytes[0]] + bytes[1..][..rest.value];
        Some(rest.value + 1)
  }

  lemma {:induction false} IndexIs(bytes: string, separator: char, k: nat)
    requires k < |bytes| && bytes[k] == separator && separator !in bytes[..k]
    ensures Index(bytes, separator) == Some(k)
  {
    if k > 0 {
      assert bytes[0] == bytes[..k][0] && bytes[..k][1..] == bytes[1..][..k - 1];
      IndexIs(bytes[1..], separator, k - 1);
    }
  }

  /** At most `n` pieces: the last keeps every further separator. */
  function SplitN(bytes: Bytes, separator: Byte, n: nat): (parts: seq<Bytes>)
    requires n > 0
    ensures 0 < |parts| <= n
    ensures forall i | 0 <= i < |parts| - 1 :: separator !in parts[i]
    ensures |parts| < n ==> separator !in parts[|parts| - 1]
  {
    var at := Index(bytes, separator);
    if n == 1 || at.None? then [bytes]
    else [bytes[..at.value]] + SplitN(bytes[at.value + 1..], separator, n - 1)
  }

  lemma {:induction false} JoinUndoesSplitN(bytes: Bytes, separator: Byte, n: nat)
    requires n > 0
    ensures Join(SplitN(bytes, separator, n), separator) == bytes
  {
    var at := Index(bytes, separator);
    if n > 1 && at.Some? {
      JoinUndoesSplitN(bytes[at.value + 1..], separator, n - 1);
      var rest := SplitN(bytes[at.value + 1..], separator, n - 1);
      assert ([bytes[..at.value]] + rest)[1..] == rest;
      assert bytes == bytes[..at.value] + [separator] + bytes[at.value + 1..];
    }
  }

  lemma {:induction false} SplitNUndoesJoin(parts: seq<Bytes>, separator: Byte)
    requires |parts| > 0 && forall i | 0 <= i < |parts| - 1 :: separator !in parts[i]
    ensures SplitN(Join(parts, separator), separator, |parts|) == parts
  {
    hide Index;
    if |parts| > 1 {
      var whole := Join(parts, separator);
      var rest := Join(parts[1..], separator);
      assert separator !in parts[0];
      assert whole == parts[0] + [separator] + rest && whole[..|parts[0]|] == parts[0];
      IndexIs(whole, separator, |parts[0]|);
      assert whole[|parts[0]| + 1..] == rest;
      SplitNUndoesJoin(parts[1..], separator);
    }
  }

  lemma {:induction false} TerminatedIsJoin(fields: seq<Bytes>, separator: Byte)
    requires |fields| > 0
    ensures Terminated(fields, separator) == Join(fields, separator) + [separator]
  {
    if |fields| > 1 { TerminatedIsJoin(fields[1..], separator); }
  }

  lemma {:induction false} TerminatedConcat(a: seq<Bytes>, b: seq<Bytes>, separator: Byte)
    ensures Terminated(a + b, separator) == Terminated(a, separator) + Terminated(b, separator)
  {
    if a == [] {
      assert a + b == b;
    } else {
      assert (a + b)[1..] == a[1..] + b;
      TerminatedConcat(a[1..], b, separator);
    }
  }

  predicate IsDigits(s: string) {
    forall i | 0 <= i < |s| :: '0' <= s[i] <= '9'
  }

  /** A number in decimal. */
  function Decimal(n: nat): (digits: Bytes)
    ensures IsDigits(digits) && digits != ""
  {
    if n < 10 then [n as char + '0'] else Decimal(n / 10) + [(n % 10) as char + '0']
  }

  function Value(digits: string): nat
    requires IsDigits(digits)
  {
    if digits == "" then 0
    else Value(digits[..|digits| - 1]) * 10 + (digits[|digits| - 1] - '0') as nat
  }

  lemma {:induction false} ValueOfDecimal(n: nat)
    ensures Value(Decimal(n)) == n
  {
    var d := Decimal(n);
    if n >= 10 {
      ValueOfDecimal(n / 10);
      assert d[..|d| - 1] == Decimal(n / 10);
    } else {
      assert d[..|d| - 1] == "";
    }
  }

  lemma DecimalIsSolid(n: nat)
    ensures forall c <- Decimal(n) :: '0' <= c <= '9'
  {
  }

  lemma DecimalIsInjective(m: nat, n: nat)
    ensures Decimal(m) == Decimal(n) <==> m == n
  {
    ValueOfDecimal(m);
    ValueOfDecimal(n);
  }
}
