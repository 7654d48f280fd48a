/**
 The textual form the card records use for byte strings: every byte as two
 lowercase hexadecimal digits (Python's `"{:02x}".format(b)`), joined with
 `:` (Python's `":".join(...)`). The module also defines the inverse, Python's
 `str.split(":")` followed by parsing each group, and proves the two agree.
 */
module Hex {
  import opened Base

  /** The lowercase hexadecimal digit for a value 0..15. */
  function Digit(d: int): (c: char)
    requires 0 <= d < 16
    ensures IsDigit(c)
  {
    if d < 10 then ('0' as int + d) as char else ('a' as int + d - 10) as char
  }

  /** Characters `"{:02x}"` can produce: `0`-`9` and `a`-`f`. */
  predicate IsDigit(c: char) {
    '0' <= c <= '9' || 'a' <= c <= 'f'
  }

  /** The value of a lowercase hexadecimal digit, or None for any other character. */
  function DigitValue(c: char): (r: Option<int>)
    ensures r.Some? <==> IsDigit(c)
    ensures r.Some? ==> 0 <= r.value < 16 && Digit(r.value) == c
  {
    if '0' <= c <= '9' then Some(c as int - '0' as int)
    else if 'a' <= c <= 'f' then Some(c as int - 'a' as int + 10)
    else None
  }

  /** `"{:02x}".format(b)`: high nibble first, always two characters. */
  function ByteHex(b: byte): (s: string)
    ensures |s| == 2 && IsDigit(s[0]) && IsDigit(s[1])
  {
    [Digit(b / 16), Digit(b % 16)]
  }

  /** Reads exactly two lowercase hexadecimal digits back into a byte. */
  function ParseByte(s: string): (r: Option<byte>)
    ensures r.Some? <==> |s| == 2 && IsDigit(s[0]) && IsDigit(s[1])
  {
    if |s| != 2 then None
    else
      match (DigitValue(s[0]), DigitValue(s[1]))
      case (Some(hi), Some(lo)) => Some(hi * 16 + lo)
      case _ => None
  }

  /** Python's `sep.join(parts)` for a one-character separator: the parts in order
      with one separator between neighbours. */
  function Join(parts: seq<string>, sep: char): string {
    if |parts| == 0 then ""
    else if |parts| == 1 then parts[0]
    else parts[0] + [sep] + Join(parts[1..], sep)
  }

  /** Python's `s.split(sep)` for a one-character separator: always at least one
      part, and one more part than there are separators in `s`. */
  function Split(s: string, sep: char): (parts: seq<string>)
    ensures |parts| >= 1
    ensures forall i :: 0 <= i < |parts| ==> sep !in parts[i]
  {
    if |s| == 0 then [""]
    else
      var rest := Split(s[1..], sep);
      if s[0] == sep then [""] + rest
      else [[s[0]] + rest[0]] + rest[1..]
  }

  /** The per-byte groups of the colon form. */
  function Groups(bs: seq<byte>): (parts: seq<string>)
    ensures |parts| == |bs|
    ensures forall i :: 0 <= i < |bs| ==> parts[i] == ByteHex(bs[i])
  {
    if |bs| == 0 then [] else [ByteHex(bs[0])] + Groups(bs[1..])
  }

  /** `":".join("{:02x}".format(b) for b in bs)`: two digits per byte and one
      separator between neighbours, so 3n-1 characters for n >= 1 bytes and the
      empty string for none. */
  function ColonHex(bs: seq<byte>): (r: string)
    ensures |bs| == 0 ==> r == ""
    ensures |bs| >= 1 ==> |r| == 3 * |bs| - 1
  {
    GroupsJoinLength(bs);
    Join(Groups(bs), ':')
  }

  /** The length of the joined groups. */
  lemma {:induction false} GroupsJoinLength(bs: seq<byte>)
    ensures |bs| == 0 ==> Join(Groups(bs), ':') == ""
    ensures |bs| >= 1 ==> |Join(Groups(bs), ':')| == 3 * |bs| - 1
  {
    if |bs| > 1 {
      GroupsJoinLength(bs[1..]);
      assert Groups(bs)[1..] == Groups(bs[1..]);
    }
  }

  /** Parses every group with ParseByte; None as soon as one group is not two hex digits. */
  function ParseGroups(parts: seq<string>): (r: Option<seq<byte>>)
    ensures r.Some? ==> |r.value| == |parts|
  {
    if |parts| == 0 then Some([])
    else
      match (ParseByte(parts[0]), ParseGroups(parts[1..]))
      case (Some(b), Some(bs)) => Some([b] + bs)
      case _ => None
  }

  /** Splits on `:` and parses each group: the inverse of ColonHex. */
  function ParseColonHex(s: string): Option<seq<byte>> {
    ParseGroups(Split(s, ':'))
  }

  // ---------------------------------------------------------------------------
  // Properties of the format

  /** The two digits of a byte read back to the same byte. */
  lemma ByteHexRoundTrip(b: byte)
    ensures ParseByte(ByteHex(b)) == Some(b)
  {
  }

  /** A group that parses is exactly the formatting of the byte it parses to. */
  lemma ParseByteCanonical(s: string)
    requires ParseByte(s).Some?
    ensures ByteHex(ParseByte(s).value) == s
  {
  }

  /** A join starts with its first part and ends with its last. */
  lemma {:induction false} JoinEnds(parts: seq<string>, sep: char)
    requires |parts| >= 1
    ensures parts[0] <= Join(parts, sep)
    ensures |parts[|parts| - 1]| <= |Join(parts, sep)|
    ensures Join(parts, sep)[|Join(parts, sep)| - |parts[|parts| - 1]|..] == parts[|parts| - 1]
  {
    if |parts| >= 2 {
      var rest := parts[1..];
      JoinEnds(rest, sep);
      assert rest[|rest| - 1] == parts[|parts| - 1];
      var t := parts[0] + [sep] + Join(rest, sep);
      assert Join(parts, sep) == t;
      assert t[|t| - |rest[|rest| - 1]|..] == Join(rest, sep)[|Join(rest, sep)| - |rest[|rest| - 1]|..];
    }
  }

  /** Join with more than one part splits off its first part. */
  lemma JoinCons(parts: seq<string>, sep: char)
    requires |parts| >= 2
    ensures Join(parts, sep) == parts[0] + [sep] + Join(parts[1..], sep)
  {
  }

  /** Joining what split produced rebuilds the string. */
  lemma {:induction false} JoinSplit(s: string, sep: char)
    ensures Join(Split(s, sep), sep) == s
  {
    if |s| > 0 {
      var rest := Split(s[1..], sep);
      JoinSplit(s[1..], sep);
      if s[0] == sep {
        assert Split(s, sep) == [""] + rest;
        JoinCons([""] + rest, sep);
        assert ([""] + rest)[1..] == rest;
        assert s == [s[0]] + s[1..];
      } else {
        var parts := [[s[0]] + rest[0]] + rest[1..];
        assert Split(s, sep) == parts;
        if |rest| == 1 {
          assert Join(parts, sep) == [s[0]] + rest[0];
          assert Join(rest, sep) == rest[0];
        } else {
          JoinCons(parts, sep);
          JoinCons(rest, sep);
          assert parts[1..] == rest[1..];
        }
        assert s == [s[0]] + s[1..];
      }
    }
  }

  /** Splitting a separator-free prefix glues it onto the first part of the rest. */
  lemma {:induction false} SplitAppend(a: string, t: string, sep: char)
    requires sep !in a
    ensures Split(a + t, sep) == [a + Split(t, sep)[0]] + Split(t, sep)[1..]
  {
    var st := Split(t, sep);
    if |a| > 0 {
      var at := a + t;
      SplitAppend(a[1..], t, sep);
      assert at[1..] == a[1..] + t;
      assert at[0] == a[0] && a[0] != sep;
      var rest := Split(a[1..] + t, sep);
      assert Split(at, sep) == [[a[0]] + rest[0]] + rest[1..];
      assert rest[0] == a[1..] + st[0] && rest[1..] == st[1..];
      assert [a[0]] + (a[1..] + st[0]) == a + st[0];
    } else {
      assert a + t == t;
      assert a + st[0] == st[0];
      assert st == [st[0]] + st[1..];
    }
  }

  /** Splitting what join produced gives back the parts, provided there is at least
      one part and no part contains the separator. */
  lemma {:induction false} SplitJoin(parts: seq<string>, sep: char)
    requires |parts| >= 1
    requires forall i :: 0 <= i < |parts| ==> sep !in parts[i]
    ensures Split(Join(parts, sep), sep) == parts
  {
    if |parts| == 1 {
      SplitAppend(parts[0], "", sep);
      assert parts[0] + "" == parts[0];
    } else {
      var tail := Join(parts[1..], sep);
      SplitJoin(parts[1..], sep);
      JoinCons(parts, sep);
      assert parts[0] + [sep] + tail == parts[0] + ([sep] + tail);
      SplitAppend(parts[0], [sep] + tail, sep);
      assert ([sep] + tail)[1..] == tail;
      var st := Split([sep] + tail, sep);
      assert st == [""] + parts[1..];
      assert st[0] == "" && st[1..] == parts[1..];
      assert parts[0] + st[0] == parts[0];
      assert parts == [parts[0]] + parts[1..];
    }
  }

  /** A non-empty list of groups parses when its head and its tail do. */
  lemma ParseGroupsCons(parts: seq<string>)
    requires |parts| > 0 && ParseByte(parts[0]).Some? && ParseGroups(parts[1..]).Some?
    ensures ParseGroups(parts) == Some([ParseByte(parts[0]).value] + ParseGroups(parts[1..]).value)
  {
  }

  /** Parsing the groups of a byte string gives the byte string back. */
  lemma {:induction false} ParseGroupsOfGroups(bs: seq<byte>)
    ensures ParseGroups(Groups(bs)) == Some(bs)
  {
    if |bs| > 0 {
      var g := Groups(bs);
      ParseGroupsOfGroups(bs[1..]);
      ByteHexRoundTrip(bs[0]);
      assert g[0] == ByteHex(bs[0]);
      assert g[1..] == Groups(bs[1..]);
      ParseGroupsCons(g);
      assert bs == [bs[0]] + bs[1..];
    }
  }

  /** Parsed groups are exactly the groups of the parsed bytes. */
  lemma {:induction false} GroupsOfParseGroups(parts: seq<string>)
    requires ParseGroups(parts).Some?
    ensures Groups(ParseGroups(parts).value) == parts
  {
    if |parts| > 0 {
      GroupsOfParseGroups(parts[1..]);
      ParseByteCanonical(parts[0]);
      var bs := ParseGroups(parts).value;
      assert bs[1..] == ParseGroups(parts[1..]).value;
      assert parts == [parts[0]] + parts[1..];
    }
  }

  /** Round trip: splitting a non-empty colon form on `:` and parsing each group
      recovers the original bytes. */
  lemma ColonHexRoundTrip(bs: seq<byte>)
    requires |bs| >= 1
    ensures ParseColonHex(ColonHex(bs)) == Some(bs)
  {
    var parts := Groups(bs);
    forall i | 0 <= i < |parts|
      ensures ':' !in parts[i]
    {
      assert parts[i] == ByteHex(bs[i]);
    }
    SplitJoin(parts, ':');
    ParseGroupsOfGroups(bs);
  }

  /** Converse: every string ParseColonHex accepts is the colon form of at least
      one byte, so the format is canonical and the two functions are inverse. */
  lemma ParseColonHexCanonical(s: string)
    requires ParseColonHex(s).Some?
    ensures |ParseColonHex(s).value| >= 1
    ensures ColonHex(ParseColonHex(s).value) == s
  {
    GroupsOfParseGroups(Split(s, ':'));
    JoinSplit(s, ':');
  }

  /** Distinct byte strings never share a colon form. */
  lemma ColonHexInjective(a: seq<byte>, b: seq<byte>)
    requires ColonHex(a) == ColonHex(b)
    ensures a == b
  {
    if |a| == 0 || |b| == 0 {
    } else {
      ColonHexRoundTrip(a);
      ColonHexRoundTrip(b);
    }
  }
}
