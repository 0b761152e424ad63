/** Reading gold entities off BIO tags (validation/piibench/evaluate_piibench.py). */
module GoldEntities {
  import opened Optional

  /** Inclusive token range of one entity. */
  datatype Entity = Entity(etype: string, start: nat, end: nat)

  /** `label.partition("-")`: before and after the first dash; all and nothing without one. */
  function Partition(tag: string): (string, string)
  {
    if |tag| == 0 then ("", "")
    else if tag[0] == '-' then ("", tag[1..])
    else var (before, after) := Partition(tag[1..]); ([tag[0]] + before, after)
  }

  /** The detector type a tag stands for; None for "O" and for types nothing detects. */
  function TypeAt(mapping: map<string, string>, tag: string): Option<string>
  {
    var etype := Partition(tag).1;
    if tag != "O" && etype in mapping then Some(mapping[etype]) else None
  }

  predicate Begins(tag: string)
  {
    tag != "O" && Partition(tag).0 == "B"
  }

  /** Token `i` does not continue an entity of type `t` that reaches token i - 1. */
  predicate Breaks(mapping: map<string, string>, labels: seq<string>, t: string, i: nat)
    requires i < |labels|
  {
    TypeAt(mapping, labels[i]) != Some(t) || Begins(labels[i])
  }

  /**
    * An entity is a longest run of tokens of one type without a "B" after its first token: neither end
    * can be moved outwards.
    */
  ghost predicate IsEntity(mapping: map<string, string>, labels: seq<string>, x: Entity)
  {
    && x.start <= x.end < |labels|
    && (forall i :: x.start <= i <= x.end ==> TypeAt(mapping, labels[i]) == Some(x.etype))
    && (forall i :: x.start < i <= x.end ==> !Begins(labels[i]))
    && (x.start == 0 || TypeAt(mapping, labels[x.start - 1]) != Some(x.etype) || Begins(labels[x.start]))
    && (x.end + 1 < |labels| ==> Breaks(mapping, labels, x.etype, x.end + 1))
  }

  /** What is open after the first `i` labels. */
  ghost predicate OpenAt(mapping: map<string, string>, labels: seq<string>, t: string, start: nat, i: nat)
  {
    && start < i <= |labels|
    && (forall k :: start <= k < i ==> TypeAt(mapping, labels[k]) == Some(t))
    && (forall k :: start < k < i ==> !Begins(labels[k]))
    && (start == 0 || TypeAt(mapping, labels[start - 1]) != Some(t) || Begins(labels[start]))
  }

  lemma OpenIsOnly(mapping: map<string, string>, labels: seq<string>, t: string, start: nat, i: nat, x: Entity)
    requires OpenAt(mapping, labels, t, start, i) && IsEntity(mapping, labels, x) && x.end + 1 == i
    ensures x == Entity(t, start, i - 1)
  {
    assert TypeAt(mapping, labels[i - 1]) == Some(x.etype) == Some(t);
  }

  ghost predicate Ascending(xs: seq<Entity>)
  {
    forall i, j :: 0 <= i < j < |xs| ==> xs[i].end < xs[j].start
  }

  /** Exactly the entities that end before token i - 1 or, with a run closed there, before token i. */
  ghost predicate Collected(mapping: map<string, string>, labels: seq<string>, xs: seq<Entity>, i: nat)
  {
    forall x :: x in xs <==> IsEntity(mapping, labels, x) && x.end + 1 < i
  }

  ghost predicate AllBefore(xs: seq<Entity>, start: nat)
  {
    forall k :: 0 <= k < |xs| ==> xs[k].end < start
  }

  /** The state of the walk before token `i`. */
  ghost predicate Progress(mapping: map<string, string>, labels: seq<string>, xs: seq<Entity>, cur: Option<string>, start: nat, i: nat)
    requires i <= |labels|
  {
    && cur == (if i == 0 then None else TypeAt(mapping, labels[i - 1]))
    && (cur.Some? ==> OpenAt(mapping, labels, cur.value, start, i) && AllBefore(xs, start))
    && Collected(mapping, labels, xs, i) && Ascending(xs)
  }

  /** Closing the open run at `i` adds exactly the entities that end right before `i`. */
  lemma Closing(mapping: map<string, string>, labels: seq<string>, xs: seq<Entity>, t: string, start: nat, i: nat)
    requires OpenAt(mapping, labels, t, start, i) && (i < |labels| ==> Breaks(mapping, labels, t, i))
    requires Collected(mapping, labels, xs, i)
    ensures Collected(mapping, labels, xs + [Entity(t, start, i - 1)], i + 1)
  {
    forall x ensures x in xs + [Entity(t, start, i - 1)] <==> IsEntity(mapping, labels, x) && x.end + 1 <= i {
      if IsEntity(mapping, labels, x) && x.end + 1 == i {
        OpenIsOnly(mapping, labels, t, start, i, x);
      }
    }
  }

  /** No entity ends at a token that stands for nothing, or where the next token continues it. */
  lemma NoneEndsBefore(mapping: map<string, string>, labels: seq<string>, xs: seq<Entity>, i: nat)
    requires i <= |labels| && Collected(mapping, labels, xs, i)
    requires i > 0 ==>
               || TypeAt(mapping, labels[i - 1]).None?
               || (i < |labels| && TypeAt(mapping, labels[i]) == TypeAt(mapping, labels[i - 1]) && !Begins(labels[i]))
    ensures Collected(mapping, labels, xs, i + 1)
  {
    forall x | IsEntity(mapping, labels, x) ensures x.end + 1 != i {
    }
  }

  lemma CollectedBefore(mapping: map<string, string>, labels: seq<string>, xs: seq<Entity>, i: nat)
    requires Collected(mapping, labels, xs, i + 1)
    ensures AllBefore(xs, i)
  {
    forall k | 0 <= k < |xs| ensures xs[k].end < i {
      assert xs[k] in xs;
    }
  }

  lemma OpenNext(mapping: map<string, string>, labels: seq<string>, xs: seq<Entity>, i: nat)
    requires i < |labels| && Collected(mapping, labels, xs, i + 1) && Ascending(xs)
    requires i > 0 ==> Begins(labels[i]) || TypeAt(mapping, labels[i]) != TypeAt(mapping, labels[i - 1]) || labels[i] == "O"
    ensures Progress(mapping, labels, xs, TypeAt(mapping, labels[i]), i, i + 1)
  {
    CollectedBefore(mapping, labels, xs, i);
  }

  method ExtractGoldEntities(mapping: map<string, string>, labels: seq<string>) returns (entities: seq<Entity>)
    ensures forall x :: x in entities <==> IsEntity(mapping, labels, x)
    ensures Ascending(entities)
  {
    entities := [];
    var curType: Option<string> := None;
    var curStart: nat := 0;
    for i := 0 to |labels|
      invariant Progress(mapping, labels, entities, curType, curStart, i)
    {
      var mapped := TypeAt(mapping, labels[i]);
      if labels[i] == "O" || Partition(labels[i]).0 == "B" || mapped != curType {
        if curType.Some? {
          Closing(mapping, labels, entities, curType.value, curStart, i);
          entities := entities + [Entity(curType.value, curStart, i - 1)];
        } else {
          NoneEndsBefore(mapping, labels, entities, i);
        }
        curType, curStart := mapped, i;
        OpenNext(mapping, labels, entities, i);
      } else {
        NoneEndsBefore(mapping, labels, entities, i);
      }
    }
    if curType.Some? {
      Closing(mapping, labels, entities, curType.value, curStart, |labels|);
      entities := entities + [Entity(curType.value, curStart, |labels| - 1)];
    } else {
      NoneEndsBefore(mapping, labels, entities, |labels|);
    }
  }
}
