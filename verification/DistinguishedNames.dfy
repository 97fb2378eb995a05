/**
 Client identities as printed distinguished names (RFC 2253, section 2.4): the
 attribute test of include/erikslund/http/tls.hpp and the escaping that
 src/tls_transport.cpp applies to the printed name before anyone tests it.
 */
module DistinguishedNames {
  import opened Text

  const ESCAPE := '\\'
  const ASSIGNMENT := '='

  predicate IsSeparator(c: char) { c == ',' || c == '+' }

  predicate EndsType(c: char) { c == ASSIGNMENT || IsSeparator(c) }

  predicate IsHex(c: char) { HexValue(c).Some? }

  predicate StartsHexPair(s: string) { |s| > 1 && IsHex(s[0]) && IsHex(s[1]) }

  // ------------------------------------------------------------------- meaning

  /** The character written at the front, and how many bytes write it. */
  function DecodeChar(s: string): (r: (char, nat))
    requires s != ""
    ensures 1 <= r.1 <= |s|
  {
    if s[0] == ESCAPE && |s| > 1 then
      if StartsHexPair(s[1..]) then ((HexValue(s[1]).value * 16 + HexValue(s[2]).value) as char, 3)
      else (s[1], 2)
    else (s[0], 1)
  }

  /** A decoded value, and the rest from the separator that ends it. */
  function DecodeValue(s: string): (r: (string, string))
    ensures |r.1| <= |s| && (r.1 != "" ==> IsSeparator(r.1[0]))
    decreases |s|
  {
    if s == "" || IsSeparator(s[0]) then ("", s)
    else
      var (c, n) := DecodeChar(s);
      var (value, rest) := DecodeValue(s[n..]);
      ([c] + value, rest)
  }

  /** The type at the front, and the rest from the character that ends it. */
  function SplitType(s: string): (r: (string, string))
    ensures |r.1| <= |s| && (r.1 != "" ==> EndsType(r.1[0]))
  {
    if s == "" || EndsType(s[0]) then ("", s)
    else
      var (name, rest) := SplitType(s[1..]);
      ([s[0]] + name, rest)
  }

  function AfterSeparator(s: string): string { if s == "" then "" else s[1..] }

  /** The attributes of an identity, decoded, as far as its first malformed component. */
  function Attributes(identity: string): seq<(string, string)>
    decreases |identity|
  {
    var (name, rest) := SplitType(identity);
    if rest == "" || rest[0] != ASSIGNMENT then []
    else
      var (value, further) := DecodeValue(rest[1..]);
      [(name, value)] + Attributes(AfterSeparator(further))
  }

  predicate Has(attributes: seq<(string, string)>, attribute: string, value: string) {
    exists i :: 0 <= i < |attributes| && EqualsIgnoreCase(attributes[i].0, attribute) && attributes[i].1 == value
  }

  // --------------------------------------------------------------- the attribute test

  /** Decodes one character of a value. */
  method ReadChar(identity: string, at: nat) returns (decoded: char, next: nat)
    requires at < |identity| && !IsSeparator(identity[at])
    ensures at < next <= |identity|
    ensures DecodeValue(identity[at..]) == ([decoded] + DecodeValue(identity[next..]).0, DecodeValue(identity[next..]).1)
  {
    ghost var left := identity[at..];
    decoded, next := identity[at], at + 1;
    if decoded == ESCAPE && next < |identity| {
      var high := HexValue(identity[next]);
      var low := if next + 1 < |identity| then HexValue(identity[next + 1]) else None;
      if high.Some? && low.Some? {
        decoded := (high.value * 16 + low.value) as char;
        next := next + 2;
      } else {
        decoded := identity[next];
        next := next + 1;
      }
    }
    assert DecodeChar(left) == (decoded, next - at);
    assert left[next - at..] == identity[next..];
  }

  /** Compares a value while decoding it; answers whether all of it agreed and where it ends. */
  method MatchValue(identity: string, begin: nat, sameType: bool, value: string) returns (equal: bool, end: nat)
    requires begin <= |identity|
    ensures begin <= end <= |identity|
    ensures identity[end..] == DecodeValue(identity[begin..]).1
    ensures equal <==> sameType && DecodeValue(identity[begin..]).0 == value
  {
    var index, same, compared := begin, sameType, 0;
    ghost var whole := DecodeValue(identity[begin..]);
    ghost var read := "";
    assert read + whole.0 == whole.0;
    while index < |identity| && !IsSeparator(identity[index])
      invariant begin <= index <= |identity| && compared <= |value|
      invariant whole == (read + DecodeValue(identity[index..]).0, DecodeValue(identity[index..]).1)
      invariant same <==> sameType && read <= value
      invariant same ==> compared == |read|
      decreases |identity| - index
    {
      var decoded;
      decoded, index := ReadChar(identity, index);
      ReadOn(read, decoded, DecodeValue(identity[index..]).0, value);
      read := read + [decoded];
      if same {
        if compared == |value| || value[compared] != decoded {
          same := false;
        } else {
          compared := compared + 1;
        }
      }
    }
    assert whole.0 == read;
    return same && compared == |value|, index;
  }

  lemma ReadOn(read: string, c: char, rest: string, value: string)
    ensures read + ([c] + rest) == (read + [c]) + rest
    ensures read + [c] <= value <==> read <= value && |read| < |value| && value[|read|] == c
  {
    if read <= value && |read| < |value| && value[|read|] == c {
      assert value[..|read| + 1] == read + [c];
    }
    if read + [c] <= value {
      assert value[|read|] == (read + [c])[|read|];
      assert value[..|read|] == (read + [c])[..|read|];
    }
  }

  lemma HasFirst(first: (string, string), rest: seq<(string, string)>, attribute: string, value: string)
    ensures Has([first] + rest, attribute, value) <==>
            (EqualsIgnoreCase(first.0, attribute) && first.1 == value) || Has(rest, attribute, value)
  {
    var all := [first] + rest;
    if Has(rest, attribute, value) {
      var i :| 0 <= i < |rest| && EqualsIgnoreCase(rest[i].0, attribute) && rest[i].1 == value;
      assert all[i + 1] == rest[i];
    }
    if EqualsIgnoreCase(first.0, attribute) && first.1 == value { assert all[0] == first; }
  }

  method ReadType(identity: string, begin: nat) returns (end: nat)
    requires begin <= |identity|
    ensures begin <= end <= |identity|
    ensures SplitType(identity[begin..]) == (identity[begin..end], identity[end..])
  {
    end := begin;
    ghost var whole := SplitType(identity[begin..]);
    assert identity[begin..begin] + whole.0 == whole.0;
    while end < |identity| && !EndsType(identity[end])
      invariant begin <= end <= |identity|
      invariant whole == (identity[begin..end] + SplitType(identity[end..]).0, SplitType(identity[end..]).1)
    {
      assert identity[end..][1..] == identity[end + 1..];
      Associate(identity[begin..end], [identity[end]], SplitType(identity[end + 1..]).0);
      assert identity[begin..end + 1] == identity[begin..end] + [identity[end]];
      end := end + 1;
    }
    assert whole.0 == identity[begin..end];
  }

  /** One component: not well formed, or an attribute in front of the others. */
  lemma FirstAttribute(s: string, attribute: string, value: string)
    ensures var (name, rest) := SplitType(s);
            if rest == "" || rest[0] != ASSIGNMENT then !Has(Attributes(s), attribute, value)
            else
              var (decoded, further) := DecodeValue(rest[1..]);
              Has(Attributes(s), attribute, value) <==>
              (EqualsIgnoreCase(name, attribute) && decoded == value) || Has(Attributes(AfterSeparator(further)), attribute, value)
  {
    var (name, rest) := SplitType(s);
    if rest != "" && rest[0] == ASSIGNMENT {
      var (decoded, further) := DecodeValue(rest[1..]);
      HasFirst((name, decoded), Attributes(AfterSeparator(further)), attribute, value);
    }
  }

  lemma RestAfterSeparator(identity: string, end: nat)
    requires end <= |identity|
    ensures AfterSeparator(identity[end..]) == identity[if end < |identity| then end + 1 else end..]
  {
    if end < |identity| { assert identity[end..][1..] == identity[end + 1..]; }
  }

  lemma ComponentAt(identity: string, begin: nat, index: nat, attribute: string, value: string)
    requires begin <= index <= |identity| && SplitType(identity[begin..]) == (identity[begin..index], identity[index..])
    ensures if index == |identity| || identity[index] != ASSIGNMENT then !Has(Attributes(identity[begin..]), attribute, value)
            else
              var (decoded, further) := DecodeValue(identity[index + 1..]);
              Has(Attributes(identity[begin..]), attribute, value) <==>
              || (EqualsIgnoreCase(identity[begin..index], attribute) && decoded == value)
              || Has(Attributes(AfterSeparator(further)), attribute, value)
  {
    FirstAttribute(identity[begin..], attribute, value);
    if index < |identity| { assert identity[index..][1..] == identity[index + 1..]; }
  }

  /** One component: malformed, or an attribute that is the one asked for or not. */
  method TestComponent(identity: string, begin: nat, attribute: string, value: string)
    returns (malformed: bool, equal: bool, next: nat)
    requires begin < |identity|
    ensures begin < next <= |identity|
    ensures Has(Attributes(identity[begin..]), attribute, value) <==>
            !malformed && (equal || Has(Attributes(identity[next..]), attribute, value))
  {
    var index := ReadType(identity, begin);
    ComponentAt(identity, begin, index, attribute, value);
    if index == |identity| || identity[index] != ASSIGNMENT { return true, false, |identity|; }
    var sameType := EqualsIgnoreCase(identity[begin..index], attribute);
    var end;
    equal, end := MatchValue(identity, index + 1, sameType, value);
    RestAfterSeparator(identity, end);
    malformed, next := false, if end < |identity| then end + 1 else end;
  }

  /** `client_identity_has_attribute` is membership in the decoded attribute list. */
  method ClientIdentityHasAttribute(identity: string, attribute: string, value: string) returns (yes: bool)
    ensures yes <==> Has(Attributes(identity), attribute, value)
  {
    var index := 0;
    assert identity[0..] == identity;
    while index < |identity|
      invariant index <= |identity|
      invariant Has(Attributes(identity), attribute, value) <==> Has(Attributes(identity[index..]), attribute, value)
      decreases |identity| - index
    {
      var malformed, equal;
      malformed, equal, index := TestComponent(identity, index, attribute, value);
      if malformed { return false; }
      if equal { return true; }
    }
    return false;
  }

  // ------------------------------------------------------------------- escaping

  const EQUALS_HEX_ESCAPE := "\\3D"

  /** The escaped text of `s`, when `inside` says whether a value has begun. */
  function Escaped(s: string, inside: bool): string
    decreases |s|
  {
    if s == "" then ""
    else if s[0] == ESCAPE then (if |s| == 1 then s else s[..2] + Escaped(s[2..], inside))
    else if s[0] == ASSIGNMENT then (if inside then EQUALS_HEX_ESCAPE else [s[0]]) + Escaped(s[1..], true)
    else [s[0]] + Escaped(s[1..], inside && !IsSeparator(s[0]))
  }

  /** One step of the escaping loop: what it writes, where it goes on, and whether a value has begun. */
  method EscapeStep(printed: string, index: nat, inside: bool) returns (piece: string, next: nat, inside': bool)
    requires index < |printed|
    ensures index < next <= |printed|
    ensures Escaped(printed[index..], inside) == piece + Escaped(printed[next..], inside')
  {
    var character := printed[index];
    ghost var left := printed[index..];
    assert left[1..] == printed[index + 1..];
    if character == ESCAPE {
      if index + 1 < |printed| {
        assert left[..2] == [character, printed[index + 1]] && left[2..] == printed[index + 2..];
        return [character, printed[index + 1]], index + 2, inside;
      }
      assert left == [character];
      return [character], index + 1, inside;
    }
    if character == ASSIGNMENT {
      return if inside then EQUALS_HEX_ESCAPE else [character], index + 1, true;
    }
    return [character], index + 1, inside && !IsSeparator(character);
  }

  method EscapeEqualsInsideValues(printed: string) returns (escaped: string)
    ensures escaped == Escaped(printed, false)
  {
    escaped := "";
    var inside, index := false, 0;
    assert printed[0..] == printed;
    while index < |printed|
      invariant 0 <= index <= |printed|
      invariant Escaped(printed, false) == escaped + Escaped(printed[index..], inside)
      decreases |printed| - index
    {
      var piece, next, inside' := EscapeStep(printed, index, inside);
      Associate(escaped, piece, Escaped(printed[next..], inside'));
      escaped, index, inside := escaped + piece, next, inside';
    }
  }

  /** Escaping does not turn a front that is no hex digit into one, or the other way round. */
  lemma EscapedFront(s: string, inside: bool)
    ensures s == "" <==> Escaped(s, inside) == ""
    ensures s != "" ==> (IsHex(s[0]) <==> IsHex(Escaped(s, inside)[0]))
    ensures s != "" && s[0] != ASSIGNMENT ==> Escaped(s, inside)[0] == s[0]
  {}

  /** Escaping a value keeps what it decodes to, and whatever follows its separator starts afresh. */
  lemma {:induction false} ValueKept(s: string, inside: bool)
    ensures var (value, rest) := DecodeValue(s);
            DecodeValue(Escaped(s, inside)) == (value, if rest == "" then "" else [rest[0]] + Escaped(rest[1..], false))
    decreases |s|
  {
    if s != "" && !IsSeparator(s[0]) {
      var n := DecodeChar(s).1;
      if s[0] == ESCAPE && |s| > 1 {
        EscapeKept(s, inside);
        ValueKept(s[n..], inside);
      } else if s[0] == ESCAPE {
        assert s[n..] == "";
      } else if s[0] == ASSIGNMENT {
        EqualsKept(s, inside);
        ValueKept(s[1..], true);
      } else {
        assert Escaped(s, inside)[1..] == Escaped(s[1..], inside);
        ValueKept(s[1..], inside);
      }
    }
  }

  /** An escape sequence is copied as it is. */
  lemma EscapeKept(s: string, inside: bool)
    requires |s| > 1 && s[0] == ESCAPE
    ensures var (c, n) := DecodeChar(s);
            DecodeChar(Escaped(s, inside)) == (c, n) && Escaped(s, inside)[n..] == Escaped(s[n..], inside)
    ensures Escaped(s, inside)[0] == ESCAPE
  {
    var e := Escaped(s, inside);
    var t := s[2..];
    EscapedFront(t, inside);
    assert e[..2] == s[..2] && e[2..] == Escaped(t, inside);
    assert e[1] == s[1] && (t != "" ==> e[2] == Escaped(t, inside)[0] && t[0] == s[2]);
    if StartsHexPair(s[1..]) {
      assert IsHex(t[0]);
      assert Escaped(t, inside) == [t[0]] + Escaped(t[1..], inside);
      assert t[1..] == s[3..];
      assert e[3..] == Escaped(t, inside)[1..];
    }
  }

  /** An equals sign in a value is a plain one or its hex escape; both decode to it. */
  lemma EqualsKept(s: string, inside: bool)
    requires s != "" && s[0] == ASSIGNMENT
    ensures var n := DecodeChar(Escaped(s, inside)).1;
            DecodeChar(Escaped(s, inside)).0 == ASSIGNMENT && Escaped(s, inside)[n..] == Escaped(s[1..], true)
    ensures !IsSeparator(Escaped(s, inside)[0])
  {
    var e := Escaped(s, inside);
    if inside {
      assert e == EQUALS_HEX_ESCAPE + Escaped(s[1..], true);
      assert e[0] == ESCAPE && e[1] == '3' && e[2] == 'D';
      assert e[3..] == Escaped(s[1..], true);
    } else {
      assert e[1..] == Escaped(s[1..], true);
    }
  }

  /** How the text `rest` from the end of a type on is found in the escaped text: what follows an assignment was escaped
      as the inside of a value, or, when the sign itself follows an escape character, as the outside of one. */
  predicate KeptFrom(rest: string, kept: string) {
    if rest == "" then kept == ""
    else kept != "" && kept[0] == rest[0] && (rest[0] == ASSIGNMENT ==> exists inside :: kept[1..] == Escaped(rest[1..], inside))
  }

  lemma KeptAssignment(rest: string, inside: bool, kept: string)
    requires rest != "" && kept == [rest[0]] + Escaped(rest[1..], inside)
    ensures KeptFrom(rest, kept)
  {
    assert kept[1..] == Escaped(rest[1..], inside);
  }

  /** Escaping keeps the type and what ends it. */
  lemma {:induction false} TypeKept(s: string)
    ensures SplitType(Escaped(s, false)).0 == SplitType(s).0
    ensures KeptFrom(SplitType(s).1, SplitType(Escaped(s, false)).1)
    decreases |s|
  {
    if s == "" {
    } else if EndsType(s[0]) {
      KeptAssignment(s, s[0] == ASSIGNMENT, Escaped(s, false));
    } else if s[0] != ESCAPE {
      TypeKept(s[1..]);
      assert Escaped(s, false)[1..] == Escaped(s[1..], false);
    } else if |s| > 1 {
      var t := Escaped(s, false)[1..];
      assert t == [s[1]] + Escaped(s[2..], false);
      assert s[1..][1..] == s[2..] && t[1..] == Escaped(s[2..], false);
      if EndsType(s[1]) {
        KeptAssignment(s[1..], false, t);
      } else {
        TypeKept(s[2..]);
      }
    }
  }

  /** Escaping changes no attribute, for any text whatever. */
  lemma {:induction false} EscapingKeepsAttributes(s: string)
    ensures Attributes(Escaped(s, false)) == Attributes(s)
    decreases |s|
  {
    TypeKept(s);
    var rest, kept := SplitType(s).1, SplitType(Escaped(s, false)).1;
    if rest != "" && rest[0] == ASSIGNMENT {
      var inside :| kept[1..] == Escaped(rest[1..], inside);
      ValueKept(rest[1..], inside);
      var further := DecodeValue(rest[1..]).1;
      EscapingKeepsAttributes(AfterSeparator(further));
      assert further != "" ==> ([further[0]] + Escaped(further[1..], false))[1..] == Escaped(further[1..], false);
    }
  }

  /** The test answers the same before and after escaping. */
  lemma EscapingKeepsAnswers(s: string, attribute: string, value: string)
    ensures Has(Attributes(Escaped(s, false)), attribute, value) <==> Has(Attributes(s), attribute, value)
  {
    EscapingKeepsAttributes(s);
  }

  /** No component has a second unescaped equals sign. */
  predicate OnePlainEquals(s: string, seen: bool)
    decreases |s|
  {
    if s == "" then true
    else if s[0] == ESCAPE then |s| == 1 || OnePlainEquals(s[2..], seen)
    else if s[0] == ASSIGNMENT then !seen && OnePlainEquals(s[1..], true)
    else OnePlainEquals(s[1..], seen && !IsSeparator(s[0]))
  }

  /** Escaping leaves one plain equals sign a component at most, and leaves alone what already is so. */
  lemma {:induction false} EscapedIsPlain(s: string, inside: bool)
    ensures OnePlainEquals(Escaped(s, inside), inside)
    ensures OnePlainEquals(s, inside) <==> Escaped(s, inside) == s
    decreases |s|
  {
    var e := Escaped(s, inside);
    if s == "" {
    } else if s[0] == ESCAPE {
      if |s| > 1 {
        EscapedIsPlain(s[2..], inside);
        assert e[0] == s[0] && e[2..] == Escaped(s[2..], inside);
        assert s == s[..2] + s[2..];
      }
    } else if s[0] == ASSIGNMENT {
      EscapedIsPlain(s[1..], true);
      if inside {
        assert e[0] == ESCAPE && e[2] == 'D' && e[2..][1..] == Escaped(s[1..], true);
      } else {
        assert e[1..] == Escaped(s[1..], true);
        assert s == [s[0]] + s[1..];
      }
    } else {
      EscapedIsPlain(s[1..], inside && !IsSeparator(s[0]));
      assert e[1..] == Escaped(s[1..], inside && !IsSeparator(s[0]));
      assert s == [s[0]] + s[1..];
    }
  }
}
