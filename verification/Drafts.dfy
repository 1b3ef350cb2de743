/**
 The drafts that the daily watchers leave for review: identities, storage keys, and the loop that
 files one draft per broken link (web/lib/content-watch.ts and web/lib/community-agent.ts).
 */
module Drafts {
  import opened Filing
  import opened Text
  import Json

  // ---- Identities ----

  predicate LowerAlnum(c: char) { 'a' <= c <= 'z' || '0' <= c <= '9' }
  predicate Upper(c: char) { 'A' <= c <= 'Z' }
  predicate Alnum(c: char) { LowerAlnum(c) || Upper(c) }

  /** The pattern that draft ids follow. */
  predicate ValidId(id: string) {
    1 <= |id| <= 128 && forall i :: 0 <= i < |id| ==> Alnum(id[i]) || id[i] in ['.', '_', '-']
  }

  /** The pattern, character by character. */
  lemma ValidIdExactly(id: string)
    ensures ValidId(id) <==>
            && 1 <= |id| <= 128
            && forall c :: c in id ==> 'a' <= c <= 'z' || 'A' <= c <= 'Z' || '0' <= c <= '9' || c in "._-"
  {
    assert forall i :: 0 <= i < |id| ==> id[i] in id;
  }

  /** Each run of other characters becomes one dash. */
  function Collapse(s: string, inRun: bool): string {
    if s == [] then []
    else if Alnum(s[0]) then [s[0]] + Collapse(s[1..], false)
    else if inRun then Collapse(s[1..], true)
    else ['-'] + Collapse(s[1..], true)
  }

  function TrimLeft(s: string): string {
    if s != [] && s[0] == '-' then TrimLeft(s[1..]) else s
  }

  function TrimRight(s: string): string {
    if s != [] && s[|s| - 1] == '-' then TrimRight(s[..|s| - 1]) else s
  }

  function Lowered(s: string): (r: string)
    ensures |r| == |s| && forall i :: 0 <= i < |s| ==> r[i] == LowerAscii(s[i])
  {
    seq(|s|, i requires 0 <= i < |s| => LowerAscii(s[i]))
  }

  function Slugify(s: string): string {
    Lowered(TrimRight(TrimLeft(Collapse(s, false))))
  }

  /** Letters and digits with single dashes between them, in either case. */
  predicate Dashed(s: string) {
    && (forall i :: 0 <= i < |s| ==> Alnum(s[i]) || s[i] == '-')
    && (forall i :: 0 <= i < |s| - 1 ==> s[i] != '-' || s[i + 1] != '-')
  }

  predicate IsSlug(s: string) {
    && Dashed(s) && (forall i :: 0 <= i < |s| ==> !Upper(s[i]))
    && (s != [] ==> s[0] != '-' && s[|s| - 1] != '-')
  }

  lemma {:induction false} CollapseShape(s: string, inRun: bool)
    ensures var t := Collapse(s, inRun); Dashed(t) && (inRun && t != [] ==> t[0] != '-')
  {
    if s == [] {
    } else {
      var rest := Collapse(s[1..], !Alnum(s[0]));
      CollapseShape(s[1..], !Alnum(s[0]));
      if Alnum(s[0]) || !inRun {
        DashedCons(if Alnum(s[0]) then s[0] else '-', rest);
      }
    }
  }

  lemma DashedCons(c: char, s: string)
    requires Dashed(s) && (Alnum(c) || (c == '-' && (s != [] ==> s[0] != '-')))
    ensures Dashed([c] + s)
  {
  }

  lemma {:induction false} TrimLeftShape(s: string)
    requires Dashed(s)
    ensures var t := TrimLeft(s); Dashed(t) && (t != [] ==> t[0] != '-')
  {
  }

  lemma {:induction false} TrimRightShape(s: string)
    requires Dashed(s) && (s != [] ==> s[0] != '-')
    ensures var t := TrimRight(s); Dashed(t) && (t != [] ==> t[0] != '-' && t[|t| - 1] != '-')
  {
  }

  /** A slug holds lower-case letters, digits and single inner dashes only. */
  lemma SlugShape(s: string)
    ensures IsSlug(Slugify(s))
  {
    CollapseShape(s, false);
    TrimLeftShape(Collapse(s, false));
    TrimRightShape(TrimLeft(Collapse(s, false)));
    LoweredShape(TrimRight(TrimLeft(Collapse(s, false))));
  }

  lemma LoweredShape(s: string)
    requires Dashed(s) && (s != [] ==> s[0] != '-' && s[|s| - 1] != '-')
    ensures IsSlug(Lowered(s))
  {
  }

  lemma {:induction false} CollapseFixed(s: string, inRun: bool)
    requires Dashed(s) && (inRun && s != [] ==> s[0] != '-')
    ensures Collapse(s, inRun) == s
  {
    if s == [] {
    } else {
      assert forall i :: 0 <= i < |s[1..]| ==> s[1..][i] == s[i + 1];
      assert |s| > 1 ==> s[0] != '-' || s[0 + 1] != '-';
      CollapseFixed(s[1..], !Alnum(s[0]));
      assert s == [s[0]] + s[1..];
    }
  }

  /** A slug is its own slug, and nothing else is. */
  lemma SlugFixed(s: string)
    ensures Slugify(s) == s <==> IsSlug(s)
  {
    SlugShape(s);
    if IsSlug(s) {
      CollapseFixed(s, false);
      assert Slugify(s) == s;
    }
  }

  // ---- A slug is made of the words of the text ----

  /** How many letters and digits the text starts with. */
  function WordLength(s: string): (n: nat)
    ensures n <= |s|
  {
    if s != [] && Alnum(s[0]) then 1 + WordLength(s[1..]) else 0
  }

  /** The runs of letters and digits. */
  function Words(s: string): seq<string>
    decreases |s|
  {
    if s == [] then []
    else if !Alnum(s[0]) then Words(s[1..])
    else [s[..WordLength(s)]] + Words(s[WordLength(s)..])
  }

  lemma {:induction false} CollapseWord(s: string, inRun: bool)
    requires s != [] && Alnum(s[0])
    ensures Collapse(s, inRun) == s[..WordLength(s)] + Collapse(s[WordLength(s)..], false)
    decreases |s|
  {
    var n := WordLength(s);
    if |s| == 1 || !Alnum(s[1]) {
      assert s[1..] == [] || !Alnum(s[1..][0]);
      assert n == 1 && s[..1] == [s[0]];
    } else {
      CollapseWord(s[1..], false);
      assert s[1..][n - 1..] == s[n..] && s[..n] == [s[0]] + s[1..][..n - 1];
    }
  }

  lemma {:induction false} WordEnds(s: string)
    ensures WordLength(s) == |s| || !Alnum(s[WordLength(s)])
    ensures forall i :: 0 <= i < WordLength(s) ==> Alnum(s[i])
  {
    if s == [] || !Alnum(s[0]) {
    } else {
      WordEnds(s[1..]);
      assert forall i :: 0 < i < |s| ==> s[i] == s[1..][i - 1];
    }
  }

  /** The words with dashes between them. */
  function Dashes(s: string): string {
    Join(Words(s), "-")
  }

  /** The words with dashes between them, and perhaps one more dash at the end. */
  predicate DashesOf(t: string, words: seq<string>) {
    t == Join(words, "-") || (words != [] && t == Join(words, "-") + "-")
  }

  lemma DashesStep(word: string, words: seq<string>, t: string)
    requires DashesOf(t, words)
    ensures DashesOf(word + "-" + t, [word] + words)
  {
    OneMoreWord(word, words);
    Associates(word + "-", Join(words, "-"), "-");
  }

  /** Apart from a dash at the end, collapsing leaves the words with dashes between them. */
  lemma {:induction false} CollapseIsDashes(s: string)
    ensures DashesOf(Collapse(s, true), Words(s))
    decreases |s|
  {
    if s == [] {
    } else if !Alnum(s[0]) {
      CollapseIsDashes(s[1..]);
    } else {
      var n := WordLength(s);
      var word, rest := s[..n], s[n..];
      CollapseWord(s, true);
      WordEnds(s);
      if rest == [] {
        OneMoreWord(word, []);
        assert [word] + [] == [word];
      } else {
        CollapseIsDashes(rest);
        DashesStep(word, Words(rest), Collapse(rest, true));
        Associates(word, "-", Collapse(rest, true));
      }
    }
  }

  lemma OneMoreWord(word: string, words: seq<string>)
    ensures Join([word] + words, "-") == if words == [] then word else word + "-" + Join(words, "-")
  {
    assert ([word] + words)[1..] == words;
  }

  lemma {:induction false} DashesEnds(s: string)
    ensures Dashes(s) != [] ==> Dashes(s)[0] != '-' && Dashes(s)[|Dashes(s)| - 1] != '-'
    ensures Words(s) != [] ==> Dashes(s) != []
    decreases |s|
  {
    if s == [] {
    } else if !Alnum(s[0]) {
      DashesEnds(s[1..]);
    } else {
      var n := WordLength(s);
      WordEnds(s);
      DashesEnds(s[n..]);
      OneMoreWord(s[..n], Words(s[n..]));
    }
  }

  lemma CollapseStart(s: string)
    ensures Collapse(s, false) == Collapse(s, true) || Collapse(s, false) == "-" + Collapse(s, true)
  {
    if s == [] || Alnum(s[0]) {
    } else {
      assert Collapse(s, false) == "-" + Collapse(s[1..], true);
    }
  }

  lemma TrimLeftOne(t: string, u: string)
    requires (t != [] ==> t[0] != '-') && (u == t || u == "-" + t)
    ensures TrimLeft(u) == t
  {
    assert ("-" + t)[1..] == t;
  }

  lemma TrimRightOne(t: string, u: string)
    requires (t != [] ==> t[|t| - 1] != '-') && (u == t || u == t + "-")
    ensures TrimRight(u) == t
  {
    assert (t + "-")[..|t|] == t;
  }

  lemma TrimmedIsDashes(s: string)
    ensures TrimRight(TrimLeft(Collapse(s, false))) == Dashes(s)
  {
    CollapseIsDashes(s);
    DashesEnds(s);
    CollapseStart(s);
    TrimLeftOne(Collapse(s, true), Collapse(s, false));
    TrimRightOne(Dashes(s), Collapse(s, true));
  }

  /** A slug is the words of the text, in lower case, with single dashes between them. */
  lemma SlugIsWords(s: string)
    ensures Slugify(s) == Lowered(Join(Words(s), "-"))
  {
    TrimmedIsDashes(s);
  }

  const ID_MAX := 80
  const HASH_HEX := 16

  function Cut(s: string, n: nat): string {
    if |s| <= n then s else s[..n]
  }

  predicate Hex(c: char) { '0' <= c <= '9' || 'a' <= c <= 'f' }

  /** A digest in hexadecimal: 64 digits. */
  ghost predicate IsDigest(sha: string -> string) {
    forall s :: |sha(s)| == 64 && forall i :: 0 <= i < 64 ==> Hex(sha(s)[i])
  }

  function WatchDraftId(sha: string -> string, slugSource: string, identity: string): string {
    Cut(Slugify(slugSource), ID_MAX - HASH_HEX - 1) + "-" + Cut(sha(identity), HASH_HEX)
  }

  /** Every id that a watcher makes is at most 80 characters long and follows the pattern. */
  lemma WatchIdValid(sha: string -> string, slugSource: string, identity: string)
    requires IsDigest(sha)
    ensures var id := WatchDraftId(sha, slugSource, identity); |id| <= 80 && ValidId(id)
  {
    SlugShape(slugSource);
    var slug, digits := Cut(Slugify(slugSource), ID_MAX - HASH_HEX - 1), Cut(sha(identity), HASH_HEX);
    var id := slug + "-" + digits;
    forall i | 0 <= i < |id| ensures Alnum(id[i]) || id[i] in ['.', '_', '-'] {
      if i < |slug| {
        assert id[i] == slug[i] == Slugify(slugSource)[i];
      } else if i > |slug| {
        assert id[i] == digits[i - |slug| - 1] == sha(identity)[i - |slug| - 1];
      }
    }
  }

  /** Two findings share an id exactly when they share the first 63 characters of the slug and
      the first 16 digits of the digest. */
  lemma SameIdExactly(sha: string -> string, a: string, x: string, b: string, y: string)
    requires IsDigest(sha)
    ensures WatchDraftId(sha, a, x) == WatchDraftId(sha, b, y)
       <==> Cut(Slugify(a), 63) == Cut(Slugify(b), 63) && Cut(sha(x), 16) == Cut(sha(y), 16)
  {
    var p, q := WatchDraftId(sha, a, x), WatchDraftId(sha, b, y);
    assert p[|p| - 16..] == Cut(sha(x), 16) && q[|q| - 16..] == Cut(sha(y), 16);
    assert p[..|p| - 17] == Cut(Slugify(a), 63) && q[..|q| - 17] == Cut(Slugify(b), 63);
  }

  // ---- Keys ----

  datatype Kind = Triage | PrReview | Stale | Dupes | Digest | LinkCheck | SemanticDrift

  function KindName(k: Kind): string {
    match k
    case Triage => "triage"
    case PrReview => "pr-review"
    case Stale => "stale"
    case Dupes => "dupes"
    case Digest => "digest"
    case LinkCheck => "linkcheck"
    case SemanticDrift => "semantic-drift"
  }

  const KINDS := [Triage, PrReview, Stale, Dupes, Digest, LinkCheck, SemanticDrift]

  predicate ColonFree(s: string) {
    forall i :: 0 <= i < |s| ==> s[i] != ':'
  }

  lemma KindNames(k: Kind)
    ensures k in KINDS && KindName(k) != [] && ColonFree(KindName(k))
  {
  }

  lemma KindNamesDiffer(j: Kind, k: Kind)
    ensures KindName(j) == KindName(k) <==> j == k
  {
  }

  function KindNamed(name: string): (r: Option<Kind>)
    ensures forall k :: r == Some(k) <==> KindName(k) == name
  {
    if k :| k in KINDS && KindName(k) == name then
      assert forall j :: KindName(j) == name ==> j == k by {
        forall j | KindName(j) == name ensures j == k { KindNamesDiffer(j, k); }
      }
      Some(k)
    else
      assert forall k :: KindName(k) != name by {
        forall k ensures KindName(k) != name { KindNames(k); }
      }
      None
  }

  const PREFIX := "draft:"

  function KeyText(kind: Kind, id: string): string {
    PREFIX + KindName(kind) + ":" + id
  }

  /** The keys, as they are spelled. */
  lemma KeyTextIs(kind: Kind, id: string)
    ensures KeyText(kind, id) == "draft:" + KindName(kind) + ":" + id
    ensures KindName(Triage) == "triage" && KindName(PrReview) == "pr-review" && KindName(Stale) == "stale"
    ensures KindName(Dupes) == "dupes" && KindName(Digest) == "digest" && KindName(LinkCheck) == "linkcheck"
    ensures KindName(SemanticDrift) == "semantic-drift"
  {
  }

  /** The key of a draft; an id outside the pattern is an error. */
  function DraftKey(kind: Kind, id: string): Option<string> {
    if ValidId(id) then Some(KeyText(kind, id)) else None
  }

  datatype Parsed = Parsed(kind: Kind, id: string)

  function ParseDraftKey(key: string): Option<Parsed> {
    if |key| < |PREFIX| || key[..|PREFIX|] != PREFIX then None else
      var rest := key[|PREFIX|..];
      var colon := IndexOf(rest, ":");
      if colon == -1 then None else
        var kind, id := KindNamed(rest[..colon]), rest[colon + 1..];
        if kind.None? || !ValidId(id) then None else Some(Parsed(kind.value, id))
  }

  lemma SplitAtColon(name: string, id: string)
    requires ColonFree(name)
    ensures IndexOf(name + ":" + id, ":") == |name|
  {
    var s := name + ":" + id;
    assert s[|name|..|name| + 1] == ":";
    forall j | 0 <= j < |name| ensures !OccursAt(s, ":", j) {
      assert s[j..j + 1][0] == name[j] != ':';
    }
    IndexOfIs(s, ":", |name|);
  }

  lemma BuiltParses(kind: Kind, id: string)
    requires ValidId(id)
    ensures ParseDraftKey(KeyText(kind, id)) == Some(Parsed(kind, id))
  {
    KindNames(kind);
    var key, name := KeyText(kind, id), KindName(kind);
    var rest := name + ":" + id;
    assert key == PREFIX + rest;
    assert key[..|PREFIX|] == PREFIX && key[|PREFIX|..] == rest;
    SplitAtColon(name, id);
    assert rest[..|name|] == name && rest[|name| + 1..] == id;
  }

  lemma ParsedIsBuilt(key: string)
    requires ParseDraftKey(key).Some?
    ensures var r := ParseDraftKey(key).value; ValidId(r.id) && key == KeyText(r.kind, r.id)
  {
    var rest := key[|PREFIX|..];
    var colon := IndexOf(rest, ":");
    CutAtColon(rest, colon);
    assert key == PREFIX + rest;
    FourParts(PREFIX, rest[..colon], ":", rest[colon + 1..]);
  }

  lemma CutAtColon(s: string, i: int)
    requires OccursAt(s, ":", i)
    ensures s == s[..i] + ":" + s[i + 1..]
  {
    assert s[i..i + 1] == ":";
    assert s == s[..i] + s[i..i + 1] + s[i + 1..];
  }

  lemma FourParts(a: string, b: string, c: string, d: string)
    ensures a + (b + c + d) == a + b + c + d
  {
  }

  /** Building and parsing keys are inverse: the keys that parse are exactly the built ones. */
  lemma KeyParsesExactly(key: string, kind: Kind, id: string)
    ensures ParseDraftKey(key) == Some(Parsed(kind, id)) <==> DraftKey(kind, id) == Some(key)
  {
    if ValidId(id) { BuiltParses(kind, id); }
    if ParseDraftKey(key).Some? { ParsedIsBuilt(key); }
  }

  /** Different drafts have different keys. */
  lemma KeysDiffer(j: Kind, a: string, k: Kind, b: string)
    requires ValidId(a) && ValidId(b)
    ensures KeyText(j, a) == KeyText(k, b) <==> j == k && a == b
  {
    KeyParsesExactly(KeyText(j, a), j, a);
    KeyParsesExactly(KeyText(k, b), k, b);
  }

  // ---- Drafts ----

  datatype Draft = Draft(
    id: string, kind: Kind, targetNumber: Option<int>, targetUrl: Option<string>,
    bodyEn: string, bodyZh: string, generatedAt: string, posted: bool)

  datatype Field =
    Id | Type | TargetNumber | TargetUrl | BodyEn | BodyZh | GeneratedAt | Posted | Other(name: string)

  type Value = Json.Value<Field>
  type Fields = map<Field, Value>

  /** The platform: JSON text, dates, and digests. */
  datatype Platform = Platform(
    print_: Value -> string, parse: string -> Option<Value>, dated: string -> bool, sha: string -> string)
  {
    /** JSON text gives back the objects of drafts whose target number is the value of a double. */
    ghost predicate Valid() {
      && (forall d :: Exact(d) ==> parse(print_(DraftJson(d))) == Some(DraftJson(d)))
      && parse("") == None && IsDigest(sha)
    }
  }

  function Pow2(e: nat): nat {
    if e == 0 then 1 else 2 * Pow2(e - 1)
  }

  /** An integer of 53 significant bits, within the exponent range of a double. */
  predicate DoubleParts(n: int, m: nat, e: nat) {
    m < 0x20_0000_0000_0000 && e <= 971 && (n == m * Pow2(e) || n == -(m * Pow2(e)))
  }

  /** The target number, if any, is the value of a double, as every number in JavaScript is. */
  ghost predicate Exact(d: Draft) {
    d.targetNumber.Some? ==> exists m, e :: DoubleParts(d.targetNumber.value, m, e)
  }

  /** Safe integers are; the first integer beyond them is not. */
  lemma SafeIntegersExact(d: Draft, n: int)
    requires d.targetNumber == Some(n)
    ensures -0x20_0000_0000_0000 < n < 0x20_0000_0000_0000 ==> Exact(d)
    ensures n == 0x20_0000_0000_0000 ==> Exact(d)
    ensures n == 0x20_0000_0000_0001 ==> !Exact(d)
  {
    assert Pow2(1) == 2 * Pow2(0);
    if -0x20_0000_0000_0000 < n < 0x20_0000_0000_0000 {
      assert DoubleParts(n, if n < 0 then -n else n, 0);
    } else if n == 0x20_0000_0000_0000 {
      assert DoubleParts(n, 0x10_0000_0000_0000, 1);
    } else if m, e :| n == 0x20_0000_0000_0001 && DoubleParts(n, m, e) {
      Even(m, e);
    }
  }

  lemma Even(m: nat, e: nat)
    ensures e > 0 ==> m * Pow2(e) == 2 * (m * Pow2(e - 1))
  {
    if e > 0 { Regroup(m, Pow2(e - 1)); }
  }

  lemma Regroup(a: nat, b: nat)
    ensures a * (2 * b) == 2 * (a * b)
  {
  }

  predicate IsStr(fields: Fields, f: Field) { f in fields && fields[f].Str? }

  /** The fields that a draft must have. */
  predicate HasRequired(p: Platform, fields: Fields) {
    && IsStr(fields, Id) && ValidId(fields[Id].s)
    && IsStr(fields, Type) && KindNamed(fields[Type].s).Some?
    && IsStr(fields, BodyEn) && IsStr(fields, BodyZh)
    && IsStr(fields, GeneratedAt) && p.dated(fields[GeneratedAt].s)
    && Posted in fields && fields[Posted].Bool?
  }

  /** The fields that it may leave out. */
  predicate HasOptional(fields: Fields) {
    && (TargetNumber in fields ==> fields[TargetNumber].Int? && fields[TargetNumber].i > 0)
    && (TargetUrl in fields ==> fields[TargetUrl].Str?)
  }

  /** `isAgentDraft`, with the draft that the value then is. Other fields are let through. */
  function ReadDraft(p: Platform, v: Value): Option<Draft> {
    if !v.Obj? || !HasRequired(p, v.fields) || !HasOptional(v.fields) then None else
      var f := v.fields;
      Some(Draft(
             f[Id].s, KindNamed(f[Type].s).value,
             if TargetNumber in f then Some(f[TargetNumber].i) else None,
             if TargetUrl in f then Some(f[TargetUrl].s) else None,
             f[BodyEn].s, f[BodyZh].s, f[GeneratedAt].s, f[Posted].b))
  }

  /** A value is a draft exactly when it is an object with these fields. */
  lemma ReadDraftExactly(p: Platform, v: Value, d: Draft)
    ensures ReadDraft(p, v) == Some(d) <==>
            && v.Obj? && ValidId(d.id) && p.dated(d.generatedAt)
            && Holds(v.fields, Id, Json.Str(d.id)) && Holds(v.fields, Type, Json.Str(KindName(d.kind)))
            && Holds(v.fields, BodyEn, Json.Str(d.bodyEn)) && Holds(v.fields, BodyZh, Json.Str(d.bodyZh))
            && Holds(v.fields, GeneratedAt, Json.Str(d.generatedAt)) && Holds(v.fields, Posted, Json.Bool(d.posted))
            && (if d.targetNumber.None? then TargetNumber !in v.fields
                else d.targetNumber.value > 0 && Holds(v.fields, TargetNumber, Json.Int(d.targetNumber.value)))
            && (if d.targetUrl.None? then TargetUrl !in v.fields
                else Holds(v.fields, TargetUrl, Json.Str(d.targetUrl.value)))
  {
    if v.Obj? && HasRequired(p, v.fields) {
      assert KindNamed(v.fields[Type].s) == Some(d.kind) <==> KindName(d.kind) == v.fields[Type].s;
    }
    assert KindNamed(KindName(d.kind)) == Some(d.kind);
  }

  predicate Holds(fields: Fields, f: Field, v: Value) {
    f in fields && fields[f] == v
  }

  predicate ValidDraft(p: Platform, d: Draft) {
    ValidId(d.id) && p.dated(d.generatedAt) && (d.targetNumber.Some? ==> d.targetNumber.value > 0)
  }

  /** A draft as an object: absent targets are left out. */
  function DraftJson(d: Draft): Value {
    var f: Fields := map[
      Id := Json.Str(d.id), Type := Json.Str(KindName(d.kind)),
      BodyEn := Json.Str(d.bodyEn), BodyZh := Json.Str(d.bodyZh),
      GeneratedAt := Json.Str(d.generatedAt), Posted := Json.Bool(d.posted)];
    var g := if d.targetNumber.Some? then f[TargetNumber := Json.Int(d.targetNumber.value)] else f;
    Json.Obj(if d.targetUrl.Some? then g[TargetUrl := Json.Str(d.targetUrl.value)] else g)
  }

  /** A draft reads back from its own object exactly when it is valid. */
  lemma DraftReadsBack(p: Platform, d: Draft)
    ensures ReadDraft(p, DraftJson(d)) == if ValidDraft(p, d) then Some(d) else None
  {
  }

  // ---- The store ----

  class Store {
    var entries: Entries

    constructor ()
      ensures entries == map[]
    {
      entries := map[];
    }

    method Put(key: string, value: string)
      modifies this
      ensures entries == old(entries)[key := value]
    {
      entries := entries[key := value];
    }
  }

  /** The draft that a text is under a key: one whose own kind and id are those of the key. */
  function Found(p: Platform, key: string, raw: string): Option<Draft> {
    var parsedKey := ParseDraftKey(key);
    if parsedKey.None? || raw == "" then None else
      var v := p.parse(raw);
      if v.None? then None else
        var d := ReadDraft(p, v.value);
        if d.None? || d.value.kind != parsedKey.value.kind || d.value.id != parsedKey.value.id then None else d
  }

  function Stored(p: Platform, m: Entries, key: string): Option<Draft> {
    if key in m then Found(p, key, m[key]) else None
  }

  /** Whatever is found under a key is a valid draft, filed under its own key. */
  lemma StoredIsFiled(p: Platform, m: Entries, key: string)
    ensures var d := Stored(p, m, key); d.Some? ==> ValidDraft(p, d.value) && key == KeyText(d.value.kind, d.value.id)
  {
    if ParseDraftKey(key).Some? { ParsedIsBuilt(key); }
  }

  /** A text is a draft under a key exactly when it parses to one that belongs there. */
  lemma FoundExactly(p: Platform, key: string, raw: string, d: Draft)
    ensures Found(p, key, raw) == Some(d) <==>
            && raw != "" && p.parse(raw).Some? && ReadDraft(p, p.parse(raw).value) == Some(d)
            && ValidId(d.id) && key == "draft:" + KindName(d.kind) + ":" + d.id
  {
    KeyParsesExactly(key, d.kind, d.id);
  }

  /** What `saveDraft` writes, `getDraft` finds. */
  lemma SavedIsFound(p: Platform, d: Draft)
    requires p.Valid() && ValidDraft(p, d) && Exact(d)
    ensures Found(p, KeyText(d.kind, d.id), p.print_(DraftJson(d))) == Some(d)
  {
    var key, text := KeyText(d.kind, d.id), p.print_(DraftJson(d));
    KeyParsesExactly(key, d.kind, d.id);
    DraftReadsBack(p, d);
    assert p.parse(text) == Some(DraftJson(d));
    assert text != "";
  }

  method GetDraft(kv: Store?, p: Platform, key: string) returns (r: Option<Draft>)
    ensures r == if kv == null then None else Stored(p, kv.entries, key)
  {
    if kv == null { return None; }
    var parsedKey := ParseDraftKey(key);
    if parsedKey.None? || key !in kv.entries { return None; }
    var raw := kv.entries[key];
    if raw == "" { return None; }
    var v := p.parse(raw);
    if v.None? { return None; }
    r := ReadDraft(p, v.value);
    if r.Some? && (r.value.kind != parsedKey.value.kind || r.value.id != parsedKey.value.id) { r := None; }
  }

  /** An id outside the pattern is an error and nothing is written. */
  method SaveDraft(kv: Store?, p: Platform, d: Draft) returns (ok: bool)
    modifies kv
    ensures ok <==> kv == null || ValidId(d.id)
    ensures kv != null ==>
              kv.entries == if ok then old(kv.entries)[KeyText(d.kind, d.id) := p.print_(DraftJson(d))]
                            else old(kv.entries)
  {
    if kv == null { return true; }
    var key := DraftKey(d.kind, d.id);
    if key.None? { return false; }
    kv.Put(key.value, p.print_(DraftJson(d)));
    ok := true;
  }

  // ---- The link check ----

  /** A probed link, with the texts of its draft and the time at which that would be written. */
  datatype Probe = Probe(url: string, ok: bool, bodyEn: string, bodyZh: string, at: string)

  const LAST := "linkcheck:last"

  function LinkId(p: Platform, b: Probe): string {
    WatchDraftId(p.sha, b.url, "linkcheck\n" + b.url)
  }

  function LinkKey(p: Platform, b: Probe): string {
    KeyText(LinkCheck, LinkId(p, b))
  }

  function LinkDraft(p: Platform, b: Probe): Draft {
    Draft(LinkId(p, b), LinkCheck, None, Some(b.url), b.bodyEn, b.bodyZh, b.at, false)
  }

  predicate Dated(p: Platform, bs: seq<Probe>) {
    forall i :: 0 <= i < |bs| ==> p.dated(bs[i].at)
  }

  function Broken(results: seq<Probe>): (r: seq<Probe>)
    ensures forall b :: b in r <==> b in results && !b.ok
  {
    if results == [] then [] else
      var last := results[|results| - 1];
      Broken(results[..|results| - 1]) + if last.ok then [] else [last]
  }

  /** The broken links keep their order, and each counts. */
  lemma {:induction false} BrokenJoin(a: seq<Probe>, b: seq<Probe>)
    ensures Broken(a + b) == Broken(a) + Broken(b)
  {
    if b == [] {
      assert a + b == a;
    } else {
      var n := |b| - 1;
      BrokenJoin(a, b[..n]);
      assert (a + b)[..|a + b| - 1] == a + b[..n] && (a + b)[|a + b| - 1] == b[n];
      Associates(Broken(a), Broken(b[..n]), if b[n].ok then [] else [b[n]]);
    }
  }

  /** Two links share a key exactly when the first 63 characters of their slugs and the first 16
      digits of their digests agree. */
  lemma LinkKeysExactly(p: Platform, a: Probe, b: Probe)
    requires IsDigest(p.sha)
    ensures LinkKey(p, a) == LinkKey(p, b) <==>
            && Cut(Slugify(a.url), 63) == Cut(Slugify(b.url), 63)
            && Cut(p.sha("linkcheck\n" + a.url), 16) == Cut(p.sha("linkcheck\n" + b.url), 16)
  {
    WatchIdValid(p.sha, a.url, "linkcheck\n" + a.url);
    WatchIdValid(p.sha, b.url, "linkcheck\n" + b.url);
    KeysDiffer(LinkCheck, LinkId(p, a), LinkCheck, LinkId(p, b));
    SameIdExactly(p.sha, a.url, "linkcheck\n" + a.url, b.url, "linkcheck\n" + b.url);
  }

  /** Whether a text is a draft under its key. */
  function IsDraft(p: Platform): Open {
    (key, raw) => Found(p, key, raw).Some?
  }

  function LinkItem(p: Platform, b: Probe): Item {
    Item(LinkKey(p, b), p.print_(DraftJson(LinkDraft(p, b))))
  }

  function LinkItems(p: Platform, bs: seq<Probe>): (r: seq<Item>)
    ensures |r| == |bs| && forall i :: 0 <= i < |bs| ==> r[i] == LinkItem(p, bs[i])
  {
    seq(|bs|, i requires 0 <= i < |bs| => LinkItem(p, bs[i]))
  }

  function LinkRound(p: Platform, results: seq<Probe>, summary: string): Round {
    Round(summary, LinkItems(p, Broken(results)))
  }

  /** One check: the summary under its own key, then one draft for each broken link that has none
      open. */
  method RunLinkCheck(kv: Store?, p: Platform, results: seq<Probe>, summary: string)
    returns (ok: bool, checked: nat, broken: nat)
    requires IsDigest(p.sha)
    modifies kv
    ensures ok <==> kv != null
    ensures if ok then checked == |results| && broken == |Broken(results)| else checked == broken == 0
    ensures kv != null ==>
              kv.entries == AfterRound(IsDraft(p), LAST, old(kv.entries), LinkRound(p, results, summary))
  {
    if kv == null { return false, 0, 0; }
    kv.Put(LAST, summary);
    var bs := Broken(results);
    FileBroken(kv, p, bs);
    return true, |results|, |bs|;
  }

  method FileBroken(kv: Store, p: Platform, bs: seq<Probe>)
    requires IsDigest(p.sha)
    modifies kv
    ensures kv.entries == FileAll(IsDraft(p), old(kv.entries), LinkItems(p, bs))
  {
    ghost var m, xs, open := kv.entries, LinkItems(p, bs), IsDraft(p);
    var i := 0;
    while i < |bs|
      invariant 0 <= i <= |bs| && kv.entries == FileAll(open, m, xs[..i])
    {
      assert xs[i] == LinkItem(p, bs[i]);
      FileNext(open, m, xs, i);
      FileOne(kv, p, bs[i]);
      i := i + 1;
    }
    assert xs[..i] == xs;
  }

  lemma FileNext(open: Open, m: Entries, xs: seq<Item>, i: nat)
    requires i < |xs|
    ensures FileAll(open, m, xs[..i + 1]) == File(open, FileAll(open, m, xs[..i]), xs[i])
  {
    assert xs[..i + 1][..i] == xs[..i];
  }

  method FileOne(kv: Store, p: Platform, b: Probe)
    requires IsDigest(p.sha)
    modifies kv
    ensures kv.entries == File(IsDraft(p), old(kv.entries), LinkItem(p, b))
  {
    WatchIdValid(p.sha, b.url, "linkcheck\n" + b.url);
    var draft := LinkDraft(p, b);
    var existing := GetDraft(kv, p, LinkKey(p, b));
    if existing.Some? { return; }
    var saved := SaveDraft(kv, p, draft);
  }

  // ---- What checks leave behind ----

  lemma LinkItemOpens(p: Platform, b: Probe)
    requires p.Valid() && p.dated(b.at)
    ensures Found(p, LinkKey(p, b), LinkItem(p, b).text) == Some(LinkDraft(p, b))
  {
    WatchIdValid(p.sha, b.url, "linkcheck\n" + b.url);
    SavedIsFound(p, LinkDraft(p, b));
  }

  lemma SummaryIsNoDraft(p: Platform)
    ensures NeverOpen(IsDraft(p), LAST)
  {
    assert LAST[0] != PREFIX[0];
    assert LAST[..|PREFIX|][0] == LAST[0];
    assert ParseDraftKey(LAST).None?;
  }

  /** After a check, what is found under the key of a broken link is the draft that was open
      before, and otherwise the draft of the first broken link with that key. */
  lemma CheckFiles(p: Platform, m: Entries, results: seq<Probe>, summary: string, i: nat)
    requires p.Valid() && Dated(p, Broken(results)) && i < |Broken(results)|
    requires forall j :: 0 <= j < i ==> LinkKey(p, Broken(results)[j]) != LinkKey(p, Broken(results)[i])
    ensures var b := Broken(results)[i];
            var was, now := Stored(p, m, LinkKey(p, b)),
                            Stored(p, AfterRound(IsDraft(p), LAST, m, LinkRound(p, results, summary)), LinkKey(p, b));
            now == if was.Some? then was
                   else Some(Draft(WatchDraftId(p.sha, b.url, "linkcheck\n" + b.url), LinkCheck, None, Some(b.url),
                                   b.bodyEn, b.bodyZh, b.at, false))
  {
    var bs, xs := Broken(results), LinkItems(p, Broken(results));
    LinksOpen(p, bs);
    LinkItemOpens(p, bs[i]);
    SummaryIsNoDraft(p);
    LinkKeyIsNotLast(p, bs[i]);
    FirstFiled(IsDraft(p), m[LAST := summary], xs, i);
  }

  lemma LinksOpen(p: Platform, bs: seq<Probe>)
    requires p.Valid() && Dated(p, bs)
    ensures Opening(IsDraft(p), LinkItems(p, bs))
  {
    forall i | 0 <= i < |bs| ensures Found(p, LinkItems(p, bs)[i].key, LinkItems(p, bs)[i].text).Some? {
      LinkItemOpens(p, bs[i]);
    }
  }

  lemma LinkKeyIsNotLast(p: Platform, b: Probe)
    ensures LinkKey(p, b) != LAST
  {
  }

  /** A check that found some links broken. */
  datatype Check = Check(results: seq<Probe>, summary: string)

  function Rounds(p: Platform, checks: seq<Check>): (rs: seq<Round>)
    ensures |rs| == |checks|
    ensures forall i :: 0 <= i < |checks| ==> rs[i] == LinkRound(p, checks[i].results, checks[i].summary)
  {
    seq(|checks|, i requires 0 <= i < |checks| => LinkRound(p, checks[i].results, checks[i].summary))
  }

  /** The store after a history of checks. */
  function AfterChecks(p: Platform, m: Entries, checks: seq<Check>): Entries {
    AfterRounds(IsDraft(p), LAST, m, Rounds(p, checks))
  }

  predicate AllDated(p: Platform, checks: seq<Check>) {
    forall i :: 0 <= i < |checks| ==> Dated(p, Broken(checks[i].results))
  }

  /** An open draft survives every later check, character for character. */
  lemma DraftsSurvive(p: Platform, m: Entries, checks: seq<Check>, key: string)
    requires Stored(p, m, key).Some?
    ensures Same(m, AfterChecks(p, m, checks), key)
  {
    SummaryIsNoDraft(p);
    EntriesSurvive(IsDraft(p), LAST, m, Rounds(p, checks), key);
  }

  lemma RoundsOpen(p: Platform, checks: seq<Check>)
    requires p.Valid() && AllDated(p, checks)
    ensures AllOpening(IsDraft(p), Rounds(p, checks))
  {
    forall i | 0 <= i < |checks| ensures Opening(IsDraft(p), Rounds(p, checks)[i].items) {
      LinksOpen(p, Broken(checks[i].results));
    }
  }

  /** Every link that any check found broken has an open draft at the end. */
  lemma EveryBrokenLinkFlagged(p: Platform, m: Entries, checks: seq<Check>, i: nat, b: Probe)
    requires p.Valid() && AllDated(p, checks) && i < |checks| && b in checks[i].results && !b.ok
    ensures Stored(p, AfterChecks(p, m, checks), LinkKey(p, b)).Some?
  {
    var bs, rs := Broken(checks[i].results), Rounds(p, checks);
    var k :| 0 <= k < |bs| && bs[k] == b;
    SummaryIsNoDraft(p);
    RoundsOpen(p, checks);
    assert rs[i].items[k] == LinkItem(p, b);
    EveryItemOpen(IsDraft(p), LAST, m, rs, i, k);
  }

  /** The texts under a key that are drafts for this link. */
  function ForLink(p: Platform, key: string, url: string): string -> bool {
    raw => Found(p, key, raw).Some? ==> Found(p, key, raw).value.targetUrl == Some(url)
  }

  /** No other broken link of the check has the key of this one. */
  ghost predicate OnlyLink(p: Platform, results: seq<Probe>, b: Probe) {
    forall a :: a in results && !a.ok && LinkKey(p, a) == LinkKey(p, b) ==> a.url == b.url
  }

  /** A link whose key nothing else uses ends with a draft of its own: no other draft is open under
      it to begin with, and no other broken link has it. */
  lemma OwnDraftAtTheEnd(p: Platform, m: Entries, checks: seq<Check>, i: nat, b: Probe)
    requires p.Valid() && AllDated(p, checks) && i < |checks| && b in checks[i].results && !b.ok
    requires Stored(p, m, LinkKey(p, b)).Some? ==> Stored(p, m, LinkKey(p, b)).value.targetUrl == Some(b.url)
    requires forall j :: 0 <= j < |checks| ==> OnlyLink(p, checks[j].results, b)
    ensures var d := Stored(p, AfterChecks(p, m, checks), LinkKey(p, b));
            d.Some? && d.value.kind == LinkCheck && d.value.targetUrl == Some(b.url)
  {
    var key, rs := LinkKey(p, b), Rounds(p, checks);
    var good := ForLink(p, key, b.url);
    EveryBrokenLinkFlagged(p, m, checks, i, b);
    LinkKeyIsNotLast(p, b);
    forall j | 0 <= j < |rs| ensures GoodItems(rs[j].items, key, good) {
      GoodRound(p, checks[j], b);
    }
    EntriesGood(IsDraft(p), LAST, m, rs, key, good);
    StoredIsFiled(p, AfterChecks(p, m, checks), key);
    WatchIdValid(p.sha, b.url, "linkcheck\n" + b.url);
    var d := Stored(p, AfterChecks(p, m, checks), key).value;
    KeysDiffer(d.kind, d.id, LinkCheck, LinkId(p, b));
  }

  lemma GoodRound(p: Platform, c: Check, b: Probe)
    requires p.Valid() && Dated(p, Broken(c.results))
    requires OnlyLink(p, c.results, b)
    ensures GoodItems(LinkRound(p, c.results, c.summary).items, LinkKey(p, b), ForLink(p, LinkKey(p, b), b.url))
  {
    var bs, good := Broken(c.results), ForLink(p, LinkKey(p, b), b.url);
    forall k | 0 <= k < |bs| && LinkKey(p, bs[k]) == LinkKey(p, b) ensures good(LinkItem(p, bs[k]).text) {
      assert bs[k] in bs;
      LinkItemOpens(p, bs[k]);
    }
  }

  /** Some check found a link broken. */
  ghost predicate FoundBroken(checks: seq<Check>, url: string) {
    exists i, b: Probe :: 0 <= i < |checks| && b in checks[i].results && !b.ok && b.url == url
  }

  lemma FoundIsCovered(p: Platform, checks: seq<Check>, b: Probe)
    requires FoundBroken(checks, b.url)
    ensures Covered(Rounds(p, checks), LinkKey(p, b))
  {
  }

  /** A check whose broken links were all found broken before, in whatever checks, changes nothing
      but its summary. */
  lemma RepeatedCheckIdle(p: Platform, m: Entries, checks: seq<Check>, results: seq<Probe>, summary: string)
    requires p.Valid() && AllDated(p, checks)
    requires forall b :: b in results && !b.ok ==> FoundBroken(checks, b.url)
    ensures var done := AfterChecks(p, m, checks);
            AfterRound(IsDraft(p), LAST, done, LinkRound(p, results, summary)) == done[LAST := summary]
  {
    var rs, again := Rounds(p, checks), LinkRound(p, results, summary);
    SummaryIsNoDraft(p);
    RoundsOpen(p, checks);
    forall j | 0 <= j < |again.items| ensures Covered(rs, again.items[j].key) {
      assert Broken(results)[j] in Broken(results);
      FoundIsCovered(p, checks, Broken(results)[j]);
    }
    RepeatedRoundIdle(IsDraft(p), LAST, m, rs, again);
  }
}
