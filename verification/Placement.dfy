/** Conservation of declared symbols: each is in one slot of a table, or flushed
    once, or in neither. */
module Placement {
  import opened Symbols

  /** A slot of the ordinary table, of a list of mangled functions, or of the
      tag table. */
  datatype Slot = Ordinary(key: string) | Mangled(key: string) | Tag(key: string)

  ghost predicate Without<T>(s: seq<T>, x: T) {
    forall i :: 0 <= i < |s| ==> s[i] != x
  }

  /** The two tables seen as slots, the flushed list, the symbols declared so
      far and the slot each one is in. */
  datatype Places = Places(
    table: map<string, Entry>,
    tags: map<string, Symbol>,
    flushed: seq<Symbol>,
    offered: set<Symbol>,
    home: map<Symbol, Slot>)
  {
    ghost predicate Holds(slot: Slot, s: Symbol) {
      match slot
      case Ordinary(k) => k in table && table[k] == Single(s)
      case Mangled(k) => k in table && table[k].Overloads? && s in table[k].list
      case Tag(k) => k in tags && tags[k] == s
    }

    /** Every symbol that is somewhere has been declared. */
    ghost predicate OnlyOffered() {
      && (forall k | k in table && table[k].Single? :: table[k].sym in offered)
      && (forall k | k in table && table[k].Overloads? :: forall s <- table[k].list :: s in offered)
      && (forall k <- tags :: tags[k] in offered)
      && (forall s <- flushed :: s in offered)
    }

    ghost predicate OneSlotEach() {
      forall s <- offered, slot: Slot :: Holds(slot, s) <==> s in home && home[s] == slot
    }

    ghost predicate Valid() {
      && OnlyOffered()
      && OneSlotEach()
      && home.Keys <= offered
      && (forall k | k in table && table[k].Overloads? :: Distinct(table[k].list))
      && Distinct(flushed)
      && (forall s <- flushed :: s !in home)
    }

    ghost predicate Placed(s: Symbol) {
      s in home || s in flushed
    }

    // The changes a declaration makes

    ghost function PutOrdinary(k: string, s: Symbol): Places {
      this.(table := table[k := Single(s)], offered := offered + {s}, home := home[s := Ordinary(k)])
    }

    ghost function PutTag(k: string, s: Symbol): Places {
      this.(tags := tags[k := s], offered := offered + {s}, home := home[s := Tag(k)])
    }

    /** The mangled functions of key k. */
    ghost function List(k: string): seq<Symbol> {
      if k in table && table[k].Overloads? then table[k].list else []
    }

    ghost function AddMangled(k: string, s: Symbol): Places {
      this.(table := table[k := Overloads(List(k) + [s])], offered := offered + {s}, home := home[s := Mangled(k)])
    }

    ghost function Flush(s: Symbol): Places {
      this.(flushed := flushed + [s], offered := offered + {s}, home := home - {s})
    }

    ghost function Reject(s: Symbol): Places {
      this.(offered := offered + {s})
    }

    /** The list of k without its element i, which is flushed. */
    ghost function Unlist(k: string, i: nat): Places
      requires i < |List(k)|
    {
      Flush(List(k)[i]).(table := table[k := Overloads(List(k)[..i] + List(k)[i + 1..])])
    }
  }

  lemma PutOrdinaryValid(p: Places, k: string, s: Symbol)
    requires p.Valid() && s !in p.offered && k !in p.table
    ensures p.PutOrdinary(k, s).Valid()
  {
    var q := p.PutOrdinary(k, s);
    forall t <- q.offered, slot: Slot ensures q.Holds(slot, t) <==> t in q.home && q.home[t] == slot {
      assert t in p.offered ==> (p.Holds(slot, t) <==> t in p.home && p.home[t] == slot);
    }
  }

  lemma PutTagValid(p: Places, k: string, s: Symbol)
    requires p.Valid() && s !in p.offered && k !in p.tags
    ensures p.PutTag(k, s).Valid()
  {
    var q := p.PutTag(k, s);
    forall t <- q.offered, slot: Slot ensures q.Holds(slot, t) <==> t in q.home && q.home[t] == slot {
      assert t in p.offered ==> (p.Holds(slot, t) <==> t in p.home && p.home[t] == slot);
    }
  }

  lemma AddMangledValid(p: Places, k: string, s: Symbol)
    requires p.Valid() && s !in p.offered && (k in p.table ==> p.table[k].Overloads?)
    ensures p.AddMangled(k, s).Valid()
  {
    var q := p.AddMangled(k, s);
    forall t <- q.offered, slot: Slot ensures q.Holds(slot, t) <==> t in q.home && q.home[t] == slot {
      assert t in p.offered ==> (p.Holds(slot, t) <==> t in p.home && p.home[t] == slot);
    }
  }

  lemma RejectValid(p: Places, s: Symbol)
    requires p.Valid() && s !in p.offered
    ensures p.Reject(s).Valid()
  {
    var q := p.Reject(s);
    forall t <- q.offered, slot: Slot ensures q.Holds(slot, t) <==> t in q.home && q.home[t] == slot {
      assert t in p.offered ==> (p.Holds(slot, t) <==> t in p.home && p.home[t] == slot);
    }
  }

  lemma FlushNewValid(p: Places, s: Symbol)
    requires p.Valid() && s !in p.offered
    ensures p.Flush(s).Valid()
  {
    var q := p.Flush(s);
    forall t <- q.offered, slot: Slot ensures q.Holds(slot, t) <==> t in q.home && q.home[t] == slot {
      assert t in p.offered ==> (p.Holds(slot, t) <==> t in p.home && p.home[t] == slot);
    }
  }

  lemma SupersedeValid(p: Places, k: string, s: Symbol)
    requires p.Valid() && s !in p.offered && k in p.table && p.table[k].Single?
    ensures p.Flush(p.table[k].sym).PutOrdinary(k, s).Valid()
  {
    var q := p.Flush(p.table[k].sym).PutOrdinary(k, s);
    assert p.Holds(Ordinary(k), p.table[k].sym);
    forall t <- q.offered, slot: Slot ensures q.Holds(slot, t) <==> t in q.home && q.home[t] == slot {
      assert t in p.offered ==> (p.Holds(slot, t) <==> t in p.home && p.home[t] == slot);
    }
  }

  lemma SupersedeTagValid(p: Places, k: string, s: Symbol)
    requires p.Valid() && s !in p.offered && k in p.tags
    ensures p.Flush(p.tags[k]).PutTag(k, s).Valid()
  {
    var q := p.Flush(p.tags[k]).PutTag(k, s);
    assert p.Holds(Tag(k), p.tags[k]);
    forall t <- q.offered, slot: Slot ensures q.Holds(slot, t) <==> t in q.home && q.home[t] == slot {
      assert t in p.offered ==> (p.Holds(slot, t) <==> t in p.home && p.home[t] == slot);
    }
  }

  lemma UnlistValid(p: Places, k: string, i: nat)
    requires p.Valid() && i < |p.List(k)|
    ensures p.Unlist(k, i).Valid()
  {
    var q := p.Unlist(k, i);
    assert p.Holds(Mangled(k), p.List(k)[i]);
    forall t <- q.offered, slot: Slot ensures q.Holds(slot, t) <==> t in q.home && q.home[t] == slot {
      assert t in p.offered ==> (p.Holds(slot, t) <==> t in p.home && p.home[t] == slot);
    }
  }

  /** Nothing is both in a table and flushed, nor flushed twice, nor in two slots. */
  lemma Conservation(p: Places, slot: Slot, s: Symbol)
    requires p.Valid() && p.Holds(slot, s)
    ensures s !in p.flushed
    ensures forall other: Slot | p.Holds(other, s) :: other == slot
  {
  }
}
