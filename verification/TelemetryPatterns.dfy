/**
 The patterns of single telemetry fields, as grammars: which texts they are put together from
 (telemetry-ingest/src/schema.ts).
 */
module TelemetryPatterns {
  import opened Text
  import opened TelemetrySchema

  predicate Digit(c: char) { c in "0123456789" }
  predicate HexDigit(c: char) { c in "0123456789abcdef" }
  predicate LetterOrDigit(c: char) { Digit(c) || 'a' <= c <= 'z' || 'A' <= c <= 'Z' }

  predicate Number(s: string) {
    |s| >= 1 && forall i :: 0 <= i < |s| ==> Digit(s[i])
  }

  lemma DigitIs(c: char)
    ensures IsDigit(c) <==> Digit(c)
  {
    if IsDigit(c) { assert c == "0123456789"[c as int - '0' as int]; }
  }

  lemma HexDigitIs(c: char)
    ensures IsHex(c) <==> HexDigit(c)
  {
    if '0' <= c <= '9' {
      assert c == "0123456789abcdef"[c as int - '0' as int];
    } else if 'a' <= c <= 'f' {
      assert c == "0123456789abcdef"[c as int - 'a' as int + 10];
    }
  }

  lemma NumberIs(s: string)
    ensures AllDigits(s) <==> Number(s)
  {
    forall i | 0 <= i < |s| ensures IsDigit(s[i]) <==> Digit(s[i]) { DigitIs(s[i]); }
    assert forall i :: 0 <= i < |s| ==> s[i] in s;
  }

  // ---- Fixed layouts ----

  lemma SentAtAt(s: string, i: nat)
    requires |s| == 20 && i < 20
    ensures Fits("dddd-dd-ddTdd:dd:ddZ"[i], s[i]) <==>
            (if i == 4 || i == 7 then s[i] == '-'
             else if i == 10 then s[i] == 'T'
             else if i == 13 || i == 16 then s[i] == ':'
             else if i == 19 then s[i] == 'Z'
             else Digit(s[i]))
  {
    DigitIs(s[i]);
  }

  predicate Timestamp(s: string) {
    && |s| == 20 && s[4] == s[7] == '-' && s[10] == 'T' && s[13] == s[16] == ':' && s[19] == 'Z'
    && forall i :: 0 <= i < 20 && i !in {4, 7, 10, 13, 16, 19} ==> Digit(s[i])
  }

  /** A timestamp is a date, a `T`, a time and a `Z`. */
  lemma SentAtExactly(s: string)
    ensures IsSentAt(s) <==> Timestamp(s)
  {
    if |s| == 20 {
      forall i | 0 <= i < 20
        ensures Fits("dddd-dd-ddTdd:dd:ddZ"[i], s[i]) <==>
                (if i == 4 || i == 7 then s[i] == '-'
                 else if i == 10 then s[i] == 'T'
                 else if i == 13 || i == 16 then s[i] == ':'
                 else if i == 19 then s[i] == 'Z'
                 else Digit(s[i]))
      {
        SentAtAt(s, i);
      }
    }
  }

  lemma InstallIdAt(s: string, i: nat)
    requires |s| == 36 && i < 36
    ensures Fits("hhhhhhhh-hhhh-4hhh-vhhh-hhhhhhhhhhhh"[i], s[i]) <==>
            (if i == 8 || i == 13 || i == 18 || i == 23 then s[i] == '-'
             else if i == 14 then s[i] == '4'
             else if i == 19 then s[i] in "89ab"
             else HexDigit(s[i]))
  {
    HexDigitIs(s[i]);
  }

  predicate Uuid4(s: string) {
    && |s| == 36 && s[8] == s[13] == s[18] == s[23] == '-' && s[14] == '4' && s[19] in "89ab"
    && forall i :: 0 <= i < 36 && i !in {8, 13, 14, 18, 19, 23} ==> HexDigit(s[i])
  }

  /** An install id is a lower-case UUID of version 4. */
  lemma InstallIdExactly(s: string)
    ensures IsInstallId(s) <==> Uuid4(s)
  {
    if |s| == 36 {
      forall i | 0 <= i < 36
        ensures Fits("hhhhhhhh-hhhh-4hhh-vhhh-hhhhhhhhhhhh"[i], s[i]) <==>
                (if i == 8 || i == 13 || i == 18 || i == 23 then s[i] == '-'
                 else if i == 14 then s[i] == '4'
                 else if i == 19 then s[i] in "89ab"
                 else HexDigit(s[i]))
      {
        InstallIdAt(s, i);
      }
    }
  }

  /** A commit is twelve hexadecimal digits. */
  lemma GitShaExactly(s: string)
    ensures IsGitSha(s) <==> |s| == 12 && forall i :: 0 <= i < 12 ==> HexDigit(s[i])
  {
    forall i | 0 <= i < |s| ensures IsHex(s[i]) <==> HexDigit(s[i]) { HexDigitIs(s[i]); }
    assert forall i :: 0 <= i < 12 ==> "hhhhhhhhhhhh"[i] == 'h';
  }

  // ---- Versions ----

  predicate Suffix(s: string) {
    s == "" || (|s| >= 2 && s[0] == '-' && forall i :: 1 <= i < |s| ==> LetterOrDigit(s[i]) || s[i] == '.')
  }

  predicate Version(s: string, a: string, b: string, c: string, suffix: string) {
    Number(a) && Number(b) && Number(c) && Suffix(suffix) && s == a + "." + b + "." + c + suffix
  }

  lemma AlnumIs(c: char)
    ensures IsAlnum(c) <==> LetterOrDigit(c)
  {
    DigitIs(c);
  }

  lemma SuffixIs(s: string, k: nat)
    requires k <= |s|
    ensures Suffix(s[k..]) <==>
            k == |s| || (s[k] == '-' && k + 1 < |s| && forall c :: c in s[k + 1..] ==> IsAlnum(c) || c == '.')
  {
    if k < |s| {
      var tail := s[k + 1..];
      assert forall i :: 0 <= i < |tail| ==> tail[i] == s[k..][i + 1] && tail[i] in tail;
      forall i | 0 <= i < |tail| ensures IsAlnum(tail[i]) <==> LetterOrDigit(tail[i]) { AlnumIs(tail[i]); }
      assert forall i :: 1 <= i < |s[k..]| ==> s[k..][i] == tail[i - 1];
    }
  }

  lemma VersionCut(s: string, i: nat, j: nat, k: nat)
    requires VersionAt(s, i, j, k)
    ensures Version(s, s[..i], s[i + 1..j], s[j + 1..k], s[k..])
  {
    NumberIs(s[..i]);
    NumberIs(s[i + 1..j]);
    NumberIs(s[j + 1..k]);
    SuffixIs(s, k);
    assert s == s[..i] + "." + s[i + 1..j] + "." + s[j + 1..k] + s[k..];
  }

  lemma VersionJoined(s: string, a: string, b: string, c: string, suffix: string)
    requires Version(s, a, b, c, suffix)
    ensures VersionAt(s, |a|, |a| + 1 + |b|, |a| + |b| + |c| + 2)
  {
    var i, j, k := |a|, |a| + 1 + |b|, |a| + |b| + |c| + 2;
    assert s[..i] == a && s[i + 1..j] == b && s[j + 1..k] == c && s[k..] == suffix;
    NumberIs(a);
    NumberIs(b);
    NumberIs(c);
    SuffixIs(s, k);
  }

  /** A version is three numbers with dots and maybe a suffix, at most 64 characters long. */
  lemma VersionExactly(s: string)
    ensures IsVersion(s) <==> |s| <= 64 && exists a, b, c, suffix :: Version(s, a, b, c, suffix)
  {
    if i, j, k :| 0 <= i < j < k <= |s| && VersionAt(s, i, j, k) { VersionCut(s, i, j, k); }
    if a, b, c, suffix :| Version(s, a, b, c, suffix) { VersionJoined(s, a, b, c, suffix); }
  }

  // ---- Panic sites ----

  predicate PathChars(s: string) {
    |s| >= 1 && forall i :: 0 <= i < |s| ==> LetterOrDigit(s[i]) || s[i] in "_/.-"
  }

  predicate CrateSite(s: string, path: string, line: string, column: string) {
    PathChars(path) && Number(line) && Number(column) && s == "crates/" + path + ".rs:" + line + ":" + column
  }

  lemma PathCharsIs(s: string)
    ensures PathChars(s) <==> s != [] && forall c :: c in s ==> IsSiteChar(c)
  {
    forall i | 0 <= i < |s| ensures IsSiteChar(s[i]) <==> LetterOrDigit(s[i]) || s[i] in "_/.-" { AlnumIs(s[i]); }
    assert forall i :: 0 <= i < |s| ==> s[i] in s;
  }

  lemma SiteCut(s: string, i: nat, j: nat)
    requires SiteAt(s, i, j)
    ensures CrateSite(s, s[7..i], s[i + 4..j], s[j + 1..])
  {
    PathCharsIs(s[7..i]);
    NumberIs(s[i + 4..j]);
    NumberIs(s[j + 1..]);
    assert s == s[..7] + s[7..i] + s[i..i + 4] + s[i + 4..j] + ":" + s[j + 1..];
  }

  lemma SiteJoined(s: string, path: string, line: string, column: string)
    requires CrateSite(s, path, line, column)
    ensures SiteAt(s, 7 + |path|, |path| + |line| + 11)
  {
    var i, j := 7 + |path|, |path| + |line| + 11;
    assert s[..7] == "crates/" && s[7..i] == path && s[i..i + 4] == ".rs:" && s[i + 4..j] == line;
    assert s[j] == ':' && s[j + 1..] == column;
    PathCharsIs(path);
    NumberIs(line);
    NumberIs(column);
  }

  /** A panic site is "<dep>" or a file of a crate with a line and a column, at most 256 characters
      long. */
  lemma SiteExactly(s: string)
    ensures IsSite(s) <==>
            |s| <= 256 && (s == "<dep>" || exists path, line, column :: CrateSite(s, path, line, column))
  {
    if i, j :| 7 < i && i + 4 < j < |s| - 1 && SiteAt(s, i, j) { SiteCut(s, i, j); }
    if path, line, column :| CrateSite(s, path, line, column) { SiteJoined(s, path, line, column); }
  }

  // ---- Providers ----

  predicate Lower(c: char) { Digit(c) || 'a' <= c <= 'z' }

  predicate ProviderId(s: string, first: char, middle: string, last: char) {
    && Lower(first) && Lower(last) && |middle| <= 30 && (forall c :: c in middle ==> Lower(c) || c == '-')
    && s == [first] + middle + [last]
  }

  lemma LowerIs(c: char)
    ensures IsLowerAlnum(c) <==> Lower(c)
  {
    DigitIs(c);
  }

  /** A provider id is one lower-case letter or digit, or two with at most thirty such characters
      and dashes between them. */
  lemma ProviderExactly(s: string)
    ensures IsProvider(s) <==>
            (|s| == 1 && Lower(s[0])) || exists first, middle, last :: ProviderId(s, first, middle, last)
  {
    forall i | 0 <= i < |s| ensures IsLowerAlnum(s[i]) <==> Lower(s[i]) { LowerIs(s[i]); }
    assert forall i :: 0 <= i < |s| ==> s[i] in s;
    if IsProvider(s) && |s| > 1 {
      var middle := s[1..|s| - 1];
      assert forall c :: c in middle ==> c in s;
      assert s == [s[0]] + middle + [s[|s| - 1]];
      assert ProviderId(s, s[0], middle, s[|s| - 1]);
    }
  }
}
