/** `parseSort`: the comma-separated sort expression of a list request, validated field by field. */
module Sorting {
  import opened Text

  datatype Order = Asc | Desc

  datatype Criterion = Criterion(field: string, order: Order)

  /** The criteria, or the field that is not allowed. */
  datatype Parsed = Criteria(list: seq<Criterion>) | NotSortable(field: string)

  const FALLBACK := Criterion("createdAt", Desc)

  predicate Dashed(s: string) {
    s != "" && s[0] == '-'
  }

  /** The criterion a segment asks for, allowed or not. */
  function Named(segment: string): Criterion {
    var trimmed := Trim(segment);
    if Dashed(trimmed) then Criterion(trimmed[1..], Desc) else Criterion(trimmed, Asc)
  }

  /** What a segment asks for, white space around it aside: with a dash in front its rest descending,
      without one itself ascending. */
  lemma {:induction false} NamedPadded(pre: string, body: string, post: string)
    requires AllSpaces(pre) && AllSpaces(post) && EdgesClean(body)
    ensures Named(pre + body + post)
         == if body != "" && body[0] == '-' then Criterion(body[1..], Desc) else Criterion(body, Asc)
  {
    TrimPadded(pre, body, post);
  }

  function ParseSegments(segments: seq<string>, allowed: seq<string>): Parsed {
    if segments == [] then Criteria([])
    else
      var c := Named(segments[0]);
      if c.field !in allowed then NotSortable(c.field)
      else match ParseSegments(segments[1..], allowed)
        case Criteria(rest) => Criteria([c] + rest)
        case NotSortable(field) => NotSortable(field)
  }

  function Parse(sort: Option<string>, allowed: seq<string>, fallback: Criterion := FALLBACK): Parsed {
    if sort.None? || sort.value == "" then Criteria([fallback])
    else ParseSegments(Split(sort.value, ','), allowed)
  }

  /** Without a sort expression, or with an empty one, lists come newest first. */
  lemma {:induction false} DefaultSort(allowed: seq<string>)
    ensures Parse(None, allowed) == Criteria([Criterion("createdAt", Desc)])
    ensures Parse(Some(""), allowed) == Criteria([Criterion("createdAt", Desc)])
  {
  }

  // ----- what is accepted ----------------------------------------------------

  /** Segment `k` is the first that names a field not allowed. */
  predicate FirstBad(segments: seq<string>, allowed: seq<string>, k: nat, field: string)
    requires k < |segments|
  {
    && field == Named(segments[k]).field && field !in allowed
    && forall i :: 0 <= i < k ==> Named(segments[i]).field in allowed
  }

  /** Segments parse one by one, up to the first that names no allowed field. */
  lemma {:induction false} SegmentsExact(segments: seq<string>, allowed: seq<string>)
    ensures var r := ParseSegments(segments, allowed);
            && (r.Criteria? <==> forall s :: s in segments ==> Named(s).field in allowed)
            && (r.Criteria? ==>
                  |r.list| == |segments| && forall i :: 0 <= i < |segments| ==> r.list[i] == Named(segments[i]))
            && (r.NotSortable? ==> exists k :: 0 <= k < |segments| && FirstBad(segments, allowed, k, r.field))
  {
    hide Named;
    if segments == [] {
    } else {
      var rest := segments[1..];
      SegmentsExact(rest, allowed);
      assert forall s :: s in segments <==> s == segments[0] || s in rest;
      var r, r' := ParseSegments(segments, allowed), ParseSegments(rest, allowed);
      if r.NotSortable? {
        if Named(segments[0]).field !in allowed {
          assert FirstBad(segments, allowed, 0, r.field);
        } else {
          var k :| 0 <= k < |rest| && FirstBad(rest, allowed, k, r'.field);
          assert forall i :: 0 < i <= k ==> segments[i] == rest[i - 1];
          assert FirstBad(segments, allowed, k + 1, r.field);
        }
      }
    }
  }

  /** A given expression is accepted exactly when every trimmed segment, less its dash, is an allowed
      field; the criteria are then the segments' own, in order. */
  lemma {:induction false} ParseExact(sort: string, allowed: seq<string>, fallback: Criterion)
    requires sort != ""
    ensures var r, segments := Parse(Some(sort), allowed, fallback), Split(sort, ',');
            && (r.Criteria? <==> forall s :: s in segments ==> Named(s).field in allowed)
            && (r.Criteria? ==>
                  |r.list| == |segments| && forall i :: 0 <= i < |segments| ==> r.list[i] == Named(segments[i]))
            && (r.NotSortable? ==> exists k :: 0 <= k < |segments| && FirstBad(segments, allowed, k, r.field))
  {
    SegmentsExact(Split(sort, ','), allowed);
  }

  // ----- writing criteria down -----------------------------------------------

  function Written(c: Criterion): string {
    (if c.order.Desc? then "-" else "") + c.field
  }

  function WrittenAll(cs: seq<Criterion>): seq<string> {
    seq(|cs|, i requires 0 <= i < |cs| => Written(cs[i]))
  }

  function Render(cs: seq<Criterion>): string {
    Join(WrittenAll(cs), ',')
  }

  /** What a criterion needs to survive being written down: no comma, no white space at the edges, and
      no dash of its own in front when ascending. */
  predicate Writable(c: Criterion) {
    ',' !in c.field && EdgesClean(Written(c)) && (c.order.Asc? ==> !Dashed(c.field))
  }

  lemma {:induction false} TrimClean(s: string)
    ensures EdgesClean(Trim(s))
    ensures Trim(s) == s <==> EdgesClean(s)
  {
    if EdgesClean(s) {
      assert [] + s + [] == s;
      TrimPadded([], s, []);
    }
    var t := TrimStart(s);
    assert Trim(s) == TrimEnd(t);
    assert TrimEnd(t) <= t;
  }

  /** One criterion reads back exactly when it is clean at the edges and does not hide a dash. */
  lemma {:induction false} NamedWritten(c: Criterion)
    ensures Named(Written(c)) == c <==> EdgesClean(Written(c)) && (c.order.Asc? ==> !Dashed(c.field))
  {
    var w := Written(c);
    TrimClean(w);
    if Named(w) == c {
      var t := Trim(w);
      if c.order.Desc? {
        assert t == [t[0]] + t[1..];
      }
      assert t == w;
    }
  }

  function Commas(s: string): nat {
    if s == "" then 0 else (if s[0] == ',' then 1 else 0) + Commas(s[1..])
  }

  lemma {:induction false} CommasNone(s: string)
    ensures Commas(s) == 0 <==> ',' !in s
  {
    if s == "" {
    } else {
      CommasNone(s[1..]);
      assert s == [s[0]] + s[1..];
    }
  }

  lemma {:induction false} SplitCount(s: string)
    ensures |Split(s, ',')| == Commas(s) + 1
  {
    if s == "" {
    } else {
      SplitCount(s[1..]);
    }
  }

  lemma {:induction false} CommasSum(a: string, b: string)
    ensures Commas(a + b) == Commas(a) + Commas(b)
  {
    if a == "" {
      assert a + b == b;
    } else {
      assert (a + b)[1..] == a[1..] + b;
      CommasSum(a[1..], b);
    }
  }

  /** Joining `n` parts writes `n - 1` commas and those of the parts. */
  lemma {:induction false} JoinCommas(parts: seq<string>)
    requires parts != []
    ensures Commas(Join(parts, ',')) >= |parts| - 1
    ensures Commas(Join(parts, ',')) == |parts| - 1 <==> forall p :: p in parts ==> ',' !in p
  {
    CommasNone(parts[0]);
    if |parts| == 1 {
      assert forall p :: p in parts <==> p == parts[0];
    } else {
      var rest := parts[1..];
      assert forall p :: p in parts <==> p == parts[0] || p in rest;
      JoinCommas(rest);
      CommasSum(parts[0] + [','], Join(rest, ','));
      CommasSum(parts[0], [',']);
      assert Commas([',']) == 1;
    }
  }

  lemma {:induction false} CommaWritten(c: Criterion)
    ensures ',' in Written(c) <==> ',' in c.field
  {
  }

  lemma {:induction false} SplitRendered(cs: seq<Criterion>)
    requires cs != []
    ensures |Split(Render(cs), ',')| == |cs| <==> forall c :: c in cs ==> ',' !in c.field
    ensures |Split(Render(cs), ',')| == |cs| ==> Split(Render(cs), ',') == WrittenAll(cs)
  {
    var parts := WrittenAll(cs);
    assert parts != [];
    JoinCommas(parts);
    SplitCount(Render(cs));
    forall i | 0 <= i < |cs|
      ensures ',' in parts[i] <==> ',' in cs[i].field
    {
      CommaWritten(cs[i]);
    }
    assert (forall p :: p in parts ==> ',' !in p) <==> (forall c :: c in cs ==> ',' !in c.field) by {
      assert forall i :: 0 <= i < |cs| ==> parts[i] in parts && cs[i] in cs;
    }
    if forall p :: p in parts ==> ',' !in p {
      SplitJoin(parts, ',');
    }
  }

  lemma {:induction false} CommaUnwritable(c: Criterion)
    requires ',' in c.field
    ensures !Writable(c)
  {
  }

  lemma {:induction false} SegmentReads(cs: seq<Criterion>, i: nat)
    requires i < |cs| && ',' !in cs[i].field
    ensures Named(WrittenAll(cs)[i]) == cs[i] <==> Writable(cs[i])
  {
    NamedWritten(cs[i]);
  }

  lemma {:induction false} RenderedList(cs: seq<Criterion>, segments: seq<string>, allowed: seq<string>)
    requires segments == WrittenAll(cs) && forall c :: c in cs ==> ',' !in c.field
    ensures ParseSegments(segments, allowed) == Criteria(cs)
            <==> forall c :: c in cs ==> c.field in allowed && Writable(c)
  {
    SegmentsExact(segments, allowed);
    hide Named, Writable, Written, ParseSegments, FirstBad;
    forall i | 0 <= i < |cs|
      ensures cs[i] in cs && segments[i] in segments
      ensures Named(segments[i]) == cs[i] <==> Writable(cs[i])
    {
      SegmentReads(cs, i);
    }
    hide WrittenAll;
    if forall c :: c in cs ==> c.field in allowed && Writable(c) {
      forall s | s in segments
        ensures Named(s).field in allowed
      {
        var i :| 0 <= i < |segments| && segments[i] == s;
        assert cs[i] in cs;
      }
    }
  }

  /** Parsing inverts writing down exactly on lists of allowed, writable criteria. Only the expression
      that comes out empty is different: it means the fallback. */
  lemma {:induction false} ParseRender(cs: seq<Criterion>, allowed: seq<string>, fallback: Criterion)
    requires cs != []
    ensures Render(cs) != "" ==>
              (Parse(Some(Render(cs)), allowed, fallback) == Criteria(cs)
               <==> forall c :: c in cs ==> c.field in allowed && Writable(c))
    ensures Render(cs) == "" ==>
              Parse(Some(Render(cs)), allowed, fallback) == Criteria([fallback]) && cs == [Criterion("", Asc)]
  {
    SplitRendered(cs);
    var segments := Split(Render(cs), ',');
    if Render(cs) == "" {
      assert segments == [""] && Commas("") == 0;
      SplitCount("");
      JoinCommas(WrittenAll(cs));
      assert WrittenAll(cs)[0] == Written(cs[0]);
      assert cs == [cs[0]];
    } else {
      hide Render, Split, Named, Writable, Written, WrittenAll;
      SegmentsExact(segments, allowed);
      if |segments| == |cs| {
        RenderedList(cs, segments, allowed);
      } else {
        var c :| c in cs && ',' in c.field;
        CommaUnwritable(c);
      }
    }
  }
}
