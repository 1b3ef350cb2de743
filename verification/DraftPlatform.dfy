/**
 A platform of the kind that the draft store assumes: a printer of drafts with a reader that
 undoes it, and a digest of the right shape.
 */
module DraftPlatform {
  import opened Drafts
  import opened Text

  // ---- A code for lists of texts ----

  /** Each character behind a mark, and a closing mark. */
  function Code(s: string): string {
    if s == [] then "." else [',', s[0]] + Code(s[1..])
  }

  function Codes(ss: seq<string>): string {
    if ss == [] then [] else Code(ss[0]) + Codes(ss[1..])
  }

  /** A coded text can be told from whatever follows it. */
  lemma {:induction false} CodeInjective(s: string, t: string, p: string, q: string)
    requires Code(s) + p == Code(t) + q
    ensures s == t && p == q
    decreases |s|
  {
    var x, y := Code(s) + p, Code(t) + q;
    assert s != [] ==> x[0] == ',' && x[1] == s[0] && x[2..] == Code(s[1..]) + p;
    assert t != [] ==> y[0] == ',' && y[1] == t[0] && y[2..] == Code(t[1..]) + q;
    assert s == [] ==> x[0] == '.' && x[1..] == p;
    assert t == [] ==> y[0] == '.' && y[1..] == q;
    if s == [] {
    } else {
      CodeInjective(s[1..], t[1..], p, q);
      assert s == [s[0]] + s[1..] && t == [t[0]] + t[1..];
    }
  }

  lemma {:induction false} CodesInjective(ss: seq<string>, ts: seq<string>)
    requires |ss| == |ts| && Codes(ss) == Codes(ts)
    ensures ss == ts
  {
    if ss == [] {
    } else {
      CodeInjective(ss[0], ts[0], Codes(ss[1..]), Codes(ts[1..]));
      CodesInjective(ss[1..], ts[1..]);
      assert ss == [ss[0]] + ss[1..] && ts == [ts[0]] + ts[1..];
    }
  }

  // ---- Drafts as texts ----

  function Unary(n: nat): (s: string)
    ensures |s| == n
  {
    seq(n, i => '1')
  }

  function NumberText(n: Option<int>): string {
    if n.None? then "" else if n.value < 0 then "-" + Unary(-n.value) else "+" + Unary(n.value)
  }

  lemma NumberTextInjective(m: Option<int>, n: Option<int>)
    requires NumberText(m) == NumberText(n)
    ensures m == n
  {
    var s := NumberText(m);
    assert m.Some? ==> s != [] && s[0] == (if m.value < 0 then '-' else '+');
    assert n.Some? ==> s != [] && s[0] == (if n.value < 0 then '-' else '+');
  }

  function OptionText(s: Option<string>): string {
    if s.None? then "" else "+" + s.value
  }

  lemma OptionTextInjective(s: Option<string>, t: Option<string>)
    requires OptionText(s) == OptionText(t)
    ensures s == t
  {
    if s.Some? && t.Some? {
      assert OptionText(s)[1..] == s.value && OptionText(t)[1..] == t.value;
    }
  }

  function Parts(d: Draft): seq<string> {
    [d.id, KindName(d.kind), NumberText(d.targetNumber), OptionText(d.targetUrl),
     d.bodyEn, d.bodyZh, d.generatedAt, if d.posted then "+" else ""]
  }

  lemma PartsInjective(d: Draft, e: Draft)
    requires Parts(d) == Parts(e)
    ensures d == e
  {
    var p, q := Parts(d), Parts(e);
    assert p[0] == q[0] && p[1] == q[1] && p[2] == q[2] && p[3] == q[3];
    assert p[4] == q[4] && p[5] == q[5] && p[6] == q[6] && p[7] == q[7];
    KindNamesDiffer(d.kind, e.kind);
    NumberTextInjective(d.targetNumber, e.targetNumber);
    OptionTextInjective(d.targetUrl, e.targetUrl);
  }

  lemma DraftJsonInjective(d: Draft, e: Draft)
    requires DraftJson(d) == DraftJson(e)
    ensures d == e
  {
    var f, g := DraftJson(d).fields, DraftJson(e).fields;
    assert f[Id] == g[Id] && f[Type] == g[Type] && f[BodyEn] == g[BodyEn] && f[BodyZh] == g[BodyZh];
    assert f[GeneratedAt] == g[GeneratedAt] && f[Posted] == g[Posted];
    assert TargetNumber in f <==> d.targetNumber.Some?;
    assert TargetUrl in f <==> d.targetUrl.Some?;
    KindNamesDiffer(d.kind, e.kind);
  }

  // ---- The platform ----

  ghost predicate IsDraftOf(d: Draft, v: Value) {
    DraftJson(d) == v
  }

  ghost function Print(v: Value): string {
    if d :| IsDraftOf(d, v) then Codes(Parts(d)) else ""
  }

  ghost predicate IsPrintOf(d: Draft, s: string) {
    Codes(Parts(d)) == s
  }

  ghost function Parse(s: string): Option<Value> {
    if d :| IsPrintOf(d, s) then Some(DraftJson(d)) else None
  }

  ghost function Sample(): Platform {
    Platform(Print, Parse, s => true, s => seq(64, i => '0'))
  }

  lemma PrintsDraft(d: Draft)
    ensures Print(DraftJson(d)) == Codes(Parts(d))
  {
    assert IsDraftOf(d, DraftJson(d));
    forall e | IsDraftOf(e, DraftJson(d)) ensures e == d { DraftJsonInjective(d, e); }
  }

  lemma ParsesDraft(d: Draft)
    ensures Parse(Codes(Parts(d))) == Some(DraftJson(d))
  {
    assert IsPrintOf(d, Codes(Parts(d)));
    forall e | IsPrintOf(e, Codes(Parts(d))) ensures e == d {
      CodesInjective(Parts(d), Parts(e));
      PartsInjective(d, e);
    }
  }

  /** The assumptions about the platform can be met. */
  lemma SampleIsValid()
    ensures Sample().Valid()
  {
    forall d ensures Parse(Print(DraftJson(d))) == Some(DraftJson(d)) {
      PrintsDraft(d);
      ParsesDraft(d);
    }
    forall d ensures !IsPrintOf(d, "") {
      assert Codes(Parts(d)) == Code(Parts(d)[0]) + Codes(Parts(d)[1..]);
    }
  }
}
