/**
 Policy writes that overlap. A write looks for its subject's row and, some time later,
 updates the row it found or creates one.
 */
module OverlappingPolicies {
  import opened AccessPolicy
  import opened PolicyStore
  import opened Prelude

  /** A write that has looked: the place of the row it found, if it found one. */
  datatype Pending = Pending(kind: Kind, subject: string, policy: Policy, found: Option<nat>)

  datatype System = System(rows: seq<Row>, pending: map<nat, Pending>)

  datatype Step =
    | Look(w: nat, kind: Kind, subject: string, policy: Policy)
    | Store(w: nat)
    | Clear(kind: Kind, subject: string)

  function Found(rows: seq<Row>, kind: Kind, subject: string): Option<nat> {
    if Place(rows, kind, subject) < |rows| then Some(Place(rows, kind, subject)) else None
  }

  /** The rows after the write; an update of a row cleared meanwhile is refused. */
  function Stored(rows: seq<Row>, p: Pending): seq<Row> {
    if p.found.None? then rows + [Row(p.kind, p.subject, p.policy, true)]
    else
      var i := p.found.value;
      if i < |rows| && rows[i].live then rows[i := rows[i].(policy := MergedOver(rows[i].policy, p.policy))] else rows
  }

  function Cleared(rows: seq<Row>, kind: Kind, subject: string): seq<Row> {
    var i := Place(rows, kind, subject);
    if i < |rows| then rows[i := rows[i].(live := false)] else rows
  }

  function Next(s: System, step: Step): System {
    match step
    case Look(w, kind, subject, policy) =>
      if w in s.pending then s
      else s.(pending := s.pending[w := Pending(kind, subject, policy, Found(s.rows, kind, subject))])
    case Store(w) => if w in s.pending then System(Stored(s.rows, s.pending[w]), s.pending - {w}) else s
    case Clear(kind, subject) => s.(rows := Cleared(s.rows, kind, subject))
  }

  function Run(s: System, steps: seq<Step>): System {
    if steps == [] then s else Next(Run(s, steps[..|steps| - 1]), steps[|steps| - 1])
  }

  /** A look and a write that come together are the write served alone. */
  lemma UninterruptedIsWritten(s: System, w: nat, kind: Kind, subject: string, policy: Policy)
    requires w !in s.pending
    ensures Next(Next(s, Look(w, kind, subject, policy)), Store(w))
            == s.(rows := PolicyStore.Write(s.rows, kind, subject, policy))
  {
    var looked := Next(s, Look(w, kind, subject, policy));
    assert looked.pending - {w} == s.pending;
  }

  /** The row a write found is, or was, its subject's. */
  predicate Aimed(rows: seq<Row>, p: Pending) {
    p.found.Some? ==>
      p.found.value < |rows| && rows[p.found.value].kind == p.kind && rows[p.found.value].subject == p.subject
  }

  /** A write gives its subject a second live row exactly if it found none and there is one by now. */
  lemma StoreKeepsOneExactly(rows: seq<Row>, p: Pending)
    requires OnePerSubject(rows) && Aimed(rows, p)
    ensures OnePerSubject(Stored(rows, p)) <==> !(p.found.None? && Place(rows, p.kind, p.subject) < |rows|)
  {
    var after := Stored(rows, p);
    if p.found.None? {
      assert after[|rows|] == Row(p.kind, p.subject, p.policy, true);
      var i := Place(rows, p.kind, p.subject);
      if i < |rows| {
        assert Concerns(after[|rows|], after[i].kind, after[i].subject);
      }
    }
  }

  /** No two writes in flight found their subject without a row. */
  ghost predicate Apart(s: System) {
    forall v, w :: v in s.pending && w in s.pending && v != w ==>
      s.pending[v].found.Some? || s.pending[w].found.Some?
      || s.pending[v].kind != s.pending[w].kind || s.pending[v].subject != s.pending[w].subject
  }

  ghost predicate Sound(s: System) {
    && OnePerSubject(s.rows)
    && forall w :: w in s.pending ==>
         && Aimed(s.rows, s.pending[w])
         && (s.pending[w].found.None? ==> Place(s.rows, s.pending[w].kind, s.pending[w].subject) == |s.rows|)
  }

  /** Rows only change their policy, their being live, or are added for a subject. */
  predicate Grows(rows: seq<Row>, after: seq<Row>, added: Option<(Kind, string)>) {
    && |rows| <= |after| <= |rows| + (if added.Some? then 1 else 0)
    && (forall i :: 0 <= i < |rows| ==>
          after[i].kind == rows[i].kind && after[i].subject == rows[i].subject && (after[i].live ==> rows[i].live))
    && (added.Some? && |after| > |rows| ==>
        after[|rows|].kind == added.value.0 && after[|rows|].subject == added.value.1)
  }

  lemma StillAbsent(rows: seq<Row>, after: seq<Row>, added: Option<(Kind, string)>, kind: Kind, subject: string)
    requires Grows(rows, after, added) && Place(rows, kind, subject) == |rows| && added != Some((kind, subject))
    ensures Place(after, kind, subject) == |after|
  {
    NoneAdded(rows, after, added, kind, subject);
    PlaceAbsent(after, kind, subject);
  }

  lemma NoneAdded(rows: seq<Row>, after: seq<Row>, added: Option<(Kind, string)>, kind: Kind, subject: string)
    requires Grows(rows, after, added) && added != Some((kind, subject))
    requires forall j :: 0 <= j < |rows| ==> !Concerns(rows[j], kind, subject)
    ensures forall j :: 0 <= j < |after| ==> !Concerns(after[j], kind, subject)
  {
    forall j | 0 <= j < |after| ensures !Concerns(after[j], kind, subject) {
      if j < |rows| {
        assert !Concerns(rows[j], kind, subject);
      } else {
        assert added.value == (after[j].kind, after[j].subject);
      }
    }
  }

  lemma StoreSound(s: System, w: nat)
    requires Sound(s) && Apart(s) && w in s.pending
    ensures Sound(Next(s, Store(w)))
  {
    var p, next := s.pending[w], Next(s, Store(w));
    var added := if p.found.None? then Some((p.kind, p.subject)) else None;
    StoreKeepsOneExactly(s.rows, p);
    assert Grows(s.rows, next.rows, added);
    forall v | v in next.pending && next.pending[v].found.None?
      ensures Place(next.rows, next.pending[v].kind, next.pending[v].subject) == |next.rows|
    {
      assert added != Some((next.pending[v].kind, next.pending[v].subject));
      StillAbsent(s.rows, next.rows, added, next.pending[v].kind, next.pending[v].subject);
    }
  }

  lemma ClearSound(s: System, kind: Kind, subject: string)
    requires Sound(s)
    ensures Sound(Next(s, Clear(kind, subject)))
  {
    var next := Next(s, Clear(kind, subject));
    assert Grows(s.rows, next.rows, None);
    forall v | v in next.pending && next.pending[v].found.None?
      ensures Place(next.rows, next.pending[v].kind, next.pending[v].subject) == |next.rows|
    {
      StillAbsent(s.rows, next.rows, None, next.pending[v].kind, next.pending[v].subject);
    }
  }

  ghost predicate ApartThroughout(s: System, steps: seq<Step>) {
    Apart(Run(s, steps)) && (steps != [] ==> ApartThroughout(s, steps[..|steps| - 1]))
  }

  /** In any interleaving in which no two writes in flight found one subject without a row, no subject ever has two. */
  lemma {:induction false} OneWhenApart(s: System, steps: seq<Step>)
    requires Sound(s) && ApartThroughout(s, steps)
    ensures Sound(Run(s, steps))
  {
    if steps != [] {
      var before := Run(s, steps[..|steps| - 1]);
      OneWhenApart(s, steps[..|steps| - 1]);
      match steps[|steps| - 1]
      case Look(_, _, _, _) =>
      case Store(w) => if w in before.pending { StoreSound(before, w); }
      case Clear(kind, subject) => ClearSound(before, kind, subject);
    }
  }

  /** And two that did give it two, whatever else it had or is asked. */
  lemma CrossedWritesBothCreate(rows: seq<Row>, kind: Kind, subject: string, p: Policy, q: Policy)
    requires OnePerSubject(rows) && Place(rows, kind, subject) == |rows|
    ensures var after := Run(System(rows, map[]),
                             [Look(0, kind, subject, p), Look(1, kind, subject, q), Store(0), Store(1)]).rows;
            after == rows + [Row(kind, subject, p, true), Row(kind, subject, q, true)] && !OnePerSubject(after)
  {
    var a, b := Pending(kind, subject, p, None), Pending(kind, subject, q, None);
    var s0, s2 := System(rows, map[]), System(rows, map[0 := a, 1 := b]);
    var s3 := System(rows + [Row(kind, subject, p, true)], map[1 := b]);
    assert Next(Next(s0, Look(0, kind, subject, p)), Look(1, kind, subject, q)) == s2;
    assert Next(s2, Store(0)) == s3;
    RunFour(s0, Look(0, kind, subject, p), Look(1, kind, subject, q), Store(0), Store(1));
    var after := Next(s3, Store(1)).rows;
    assert after == rows + [Row(kind, subject, p, true), Row(kind, subject, q, true)];
    assert Concerns(after[|rows| + 1], after[|rows|].kind, after[|rows|].subject);
  }

  lemma RunFour(s: System, a: Step, b: Step, c: Step, d: Step)
    ensures Run(s, [a, b, c, d]) == Next(Next(Next(Next(s, a), b), c), d)
  {
    assert [a, b, c, d][..3] == [a, b, c] && [a, b, c][..2] == [a, b] && [a, b][..1] == [a] && [a][..0] == [];
    assert Run(s, [a]) == Next(s, a);
    assert Run(s, [a, b]) == Next(Next(s, a), b);
    assert Run(s, [a, b, c]) == Next(Next(Next(s, a), b), c);
  }
}
