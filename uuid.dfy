/**
 * The identifier check that guards every route with a user id in its path
 * (isValidUUID in index.ts). The source tests an anchored regular expression
 * built from five groups of hexadecimal digits of lengths 8, 4, 4, 4 and 12
 * separated by hyphens: the textual UUID form of section 4 of RFC 9562.
 * Here the expression is a sequence of single-character atoms and matching
 * it is a recursive walk over the pattern and the string together.
 */
module Uuid {

  /** One position of the pattern: a hexadecimal character class or a literal hyphen. */
  datatype Atom = HexDigit | Hyphen

  predicate IsHexChar(c: char) {
    '0' <= c <= '9' || 'a' <= c <= 'f' || 'A' <= c <= 'F'
  }

  predicate Admits(a: Atom, c: char) {
    match a
    case HexDigit => IsHexChar(c)
    case Hyphen => c == '-'
  }

  /** A group of n hexadecimal digits. */
  function HexGroup(n: nat): seq<Atom> {
    seq(n, _ => HexDigit)
  }

  /** The 8-4-4-4-12 pattern; neither the version nor the variant digits are constrained. */
  function UuidPattern(): seq<Atom> {
    HexGroup(8) + [Hyphen] + HexGroup(4) + [Hyphen] + HexGroup(4) + [Hyphen]
      + HexGroup(4) + [Hyphen] + HexGroup(12)
  }

  /** The pattern is anchored at both ends: it must account for the whole string. */
  predicate Matches(p: seq<Atom>, s: string)
    decreases |p|
  {
    if p == [] then s == []
    else s != [] && Admits(p[0], s[0]) && Matches(p[1..], s[1..])
  }

  predicate IsHyphenIndex(i: int) {
    i == 8 || i == 13 || i == 18 || i == 23
  }

  /**
   * isValidUUID, stated position by position: 36 characters, hyphens at
   * indices 8, 13, 18 and 23, and an upper- or lower-case hexadecimal digit
   * at every other index. ValidUuidIff proves that this is exactly what the
   * anchored pattern accepts.
   */
  predicate IsValidUuid(s: string) {
    && |s| == 36
    && s[8] == '-' && s[13] == '-' && s[18] == '-' && s[23] == '-'
    && forall i :: 0 <= i < 36 && !IsHyphenIndex(i) ==> IsHexChar(s[i])
  }

  /** An anchored match of single-character atoms pairs the pattern with the string position by position. */
  lemma {:induction false} MatchesPointwise(p: seq<Atom>, s: string)
    decreases |p|
    ensures Matches(p, s) <==> |p| == |s| && forall i :: 0 <= i < |p| ==> Admits(p[i], s[i])
  {
    if p != [] && s != [] {
      MatchesPointwise(p[1..], s[1..]);
      if |p| == |s| && forall i :: 0 <= i < |p| ==> Admits(p[i], s[i]) {
        forall i | 0 <= i < |p[1..]| ensures Admits(p[1..][i], s[1..][i]) {
          assert Admits(p[i + 1], s[i + 1]);
        }
      }
      if Matches(p, s) {
        forall i | 0 <= i < |p| ensures Admits(p[i], s[i]) {
          if i > 0 {
            assert Admits(p[1..][i - 1], s[1..][i - 1]);
          }
        }
      }
    }
  }

  /** The pattern has 36 positions, hyphens at 8, 13, 18 and 23 and hex digits elsewhere. */
  lemma PatternShape()
    ensures |UuidPattern()| == 36
    ensures forall i :: 0 <= i < 36 ==> UuidPattern()[i] == if IsHyphenIndex(i) then Hyphen else HexDigit
  {
    var p := UuidPattern();
    assert |p| == 36;
    forall i | 0 <= i < 36 ensures p[i] == if IsHyphenIndex(i) then Hyphen else HexDigit {
      if i < 8 {
        assert p[i] == HexGroup(8)[i];
      } else if i == 8 {
      } else if i < 13 {
        assert p[i] == HexGroup(4)[i - 9];
      } else if i == 13 {
      } else if i < 18 {
        assert p[i] == HexGroup(4)[i - 14];
      } else if i == 18 {
      } else if i < 23 {
        assert p[i] == HexGroup(4)[i - 19];
      } else if i == 23 {
      } else {
        assert p[i] == HexGroup(12)[i - 24];
      }
    }
  }

  /**
   * The anchored 8-4-4-4-12 pattern matches a string exactly when the string
   * has 36 characters, hyphens at indices 8, 13, 18 and 23, and an upper- or
   * lower-case hexadecimal digit at every other index. Neither the version
   * nor the variant digit is constrained.
   */
  lemma ValidUuidIff(s: string)
    ensures Matches(UuidPattern(), s) <==> IsValidUuid(s)
  {
    var p := UuidPattern();
    PatternShape();
    MatchesPointwise(p, s);
    if IsValidUuid(s) {
      forall i | 0 <= i < |p| ensures Admits(p[i], s[i]) {
        if IsHyphenIndex(i) {
          assert p[i] == Hyphen;
        } else {
          assert p[i] == HexDigit;
        }
      }
    }
    if Matches(p, s) {
      assert Admits(p[8], s[8]) && Admits(p[13], s[13]) && Admits(p[18], s[18]) && Admits(p[23], s[23]);
      forall i | 0 <= i < 36 && !IsHyphenIndex(i) ensures IsHexChar(s[i]) {
        assert Admits(p[i], s[i]);
      }
    }
  }

  predicate AllHex(s: string) {
    forall i :: 0 <= i < |s| ==> IsHexChar(s[i])
  }

  /** Matching distributes over concatenation of pattern and string alike. */
  lemma {:induction false} MatchesAppend(p1: seq<Atom>, s1: string, p2: seq<Atom>, s2: string)
    requires Matches(p1, s1) && Matches(p2, s2)
    ensures Matches(p1 + p2, s1 + s2)
  {
    MatchesPointwise(p1, s1);
    MatchesPointwise(p2, s2);
    MatchesPointwise(p1 + p2, s1 + s2);
    forall i | 0 <= i < |p1 + p2| ensures Admits((p1 + p2)[i], (s1 + s2)[i]) {
      if i >= |p1| {
        assert Admits(p2[i - |p1|], s2[i - |p1|]);
      }
    }
  }

  lemma HexGroupMatches(s: string)
    requires AllHex(s)
    ensures Matches(HexGroup(|s|), s)
  {
    MatchesPointwise(HexGroup(|s|), s);
  }

  /** Five hexadecimal groups of the right lengths joined by hyphens match the pattern. */
  lemma GroupsAccepted(a: string, b: string, c: string, d: string, e: string)
    requires |a| == 8 && |b| == 4 && |c| == 4 && |d| == 4 && |e| == 12
    requires AllHex(a) && AllHex(b) && AllHex(c) && AllHex(d) && AllHex(e)
    ensures Matches(UuidPattern(), a + "-" + b + "-" + c + "-" + d + "-" + e)
  {
    HexGroupMatches(a); HexGroupMatches(b); HexGroupMatches(c); HexGroupMatches(d); HexGroupMatches(e);
    assert Matches([Hyphen], "-") by {
      MatchesPointwise([Hyphen], "-");
    }
    MatchesAppend(HexGroup(8), a, [Hyphen], "-");
    MatchesAppend(HexGroup(8) + [Hyphen], a + "-", HexGroup(4), b);
    MatchesAppend(HexGroup(8) + [Hyphen] + HexGroup(4), a + "-" + b, [Hyphen], "-");
    MatchesAppend(HexGroup(8) + [Hyphen] + HexGroup(4) + [Hyphen], a + "-" + b + "-", HexGroup(4), c);
    MatchesAppend(HexGroup(8) + [Hyphen] + HexGroup(4) + [Hyphen] + HexGroup(4), a + "-" + b + "-" + c, [Hyphen], "-");
    MatchesAppend(HexGroup(8) + [Hyphen] + HexGroup(4) + [Hyphen] + HexGroup(4) + [Hyphen],
                  a + "-" + b + "-" + c + "-", HexGroup(4), d);
    MatchesAppend(HexGroup(8) + [Hyphen] + HexGroup(4) + [Hyphen] + HexGroup(4) + [Hyphen] + HexGroup(4),
                  a + "-" + b + "-" + c + "-" + d, [Hyphen], "-");
    MatchesAppend(HexGroup(8) + [Hyphen] + HexGroup(4) + [Hyphen] + HexGroup(4) + [Hyphen] + HexGroup(4) + [Hyphen],
                  a + "-" + b + "-" + c + "-" + d + "-", HexGroup(12), e);
  }

  /** The check is purely syntactic: a version-1 identifier (its version digit is 1) is accepted. */
  lemma AcceptsVersionOne()
    ensures IsValidUuid("6ba7b810-9dad-11d1-80b4-00c04fd430c8")
  {
    VersionOneMatches();
    ValidUuidIff("6ba7b810-9dad-11d1-80b4-00c04fd430c8");
  }

  /** The anchored pattern matches a version-1 identifier. */
  lemma VersionOneMatches()
    ensures Matches(UuidPattern(), "6ba7b810-9dad-11d1-80b4-00c04fd430c8")
  {
    VersionOneGroups();
    assert "6ba7b810" + "-" + "9dad" + "-" + "11d1" + "-" + "80b4" + "-" + "00c04fd430c8"
      == "6ba7b810-9dad-11d1-80b4-00c04fd430c8";
    GroupsAccepted("6ba7b810", "9dad", "11d1", "80b4", "00c04fd430c8");
  }

  lemma VersionOneGroups()
    ensures AllHex("6ba7b810") && AllHex("9dad") && AllHex("11d1") && AllHex("80b4") && AllHex("00c04fd430c8")
  {
  }

  /** Malformed identifier of the wrong length. */
  lemma RejectsShortString()
    ensures !Matches(UuidPattern(), "not-a-uuid")
  {
    ValidUuidIff("not-a-uuid");
  }
}
