/** The machine every protocol runs on: named files that are replaced or removed in one atomic step,
    and messages that leave the machine. Power may fail between any two effects, so what a crash
    leaves behind is the result of a prefix of the effects. A write that reports an error ends its
    caller's work with the file either old or new, which is such a prefix too. */
module Host {

  type Disk<C> = map<string, C>

  datatype Effect<+C, +M> = Replace(name: string, content: C) | Remove(name: string) | Send(message: M)

  function Apply<C, M>(disk: Disk<C>, e: Effect<C, M>): Disk<C> {
    match e
    case Replace(name, content) => disk[name := content]
    case Remove(name) => disk - {name}
    case Send(_) => disk
  }

  function ApplyAll<C, M>(disk: Disk<C>, es: seq<Effect<C, M>>): Disk<C> {
    if es == [] then disk else Apply(ApplyAll(disk, es[..|es| - 1]), es[|es| - 1])
  }

  /** What is left of the effects when power fails after `cut` of them. */
  function UpTo<T>(es: seq<T>, cut: nat): (done: seq<T>)
    ensures done <= es
  {
    if cut <= |es| then es[..cut] else es
  }

  lemma {:induction false} ApplyInTurn<C, M>(disk: Disk<C>, first: seq<Effect<C, M>>, next: seq<Effect<C, M>>)
    ensures ApplyAll(disk, first + next) == ApplyAll(ApplyAll(disk, first), next)
  {
    if next == [] {
      assert first + next == first;
    } else {
      var es := first + next;
      assert es[..|es| - 1] == first + next[..|next| - 1];
      ApplyInTurn(disk, first, next[..|next| - 1]);
    }
  }

  lemma ApplyOne<C, M>(disk: Disk<C>, e: Effect<C, M>)
    ensures ApplyAll(disk, [e]) == Apply(disk, e)
  {
    assert [e][..0] == [];
  }

  lemma ApplyOneMore<C, M>(disk: Disk<C>, es: seq<Effect<C, M>>, e: Effect<C, M>)
    ensures ApplyAll(disk, es + [e]) == Apply(ApplyAll(disk, es), e)
  {
    assert (es + [e])[..|es|] == es;
  }

  class Machine<C, M> {
    var disk: Disk<C>
    ghost const boot: Disk<C>
    /** Every effect since boot, in order. */
    ghost var trace: seq<Effect<C, M>>

    ghost predicate Valid()
      reads this
    {
      disk == ApplyAll(boot, trace)
    }

    constructor (disk: Disk<C>)
      ensures Valid() && this.disk == disk && boot == disk && trace == []
    {
      this.disk, boot, trace := disk, disk, [];
    }

    method Write(name: string, content: C)
      requires Valid()
      modifies this
      ensures Valid() && trace == old(trace) + [Replace(name, content)] && disk == old(disk)[name := content]
    {
      ApplyOneMore(boot, trace, Replace(name, content));
      disk := disk[name := content];
      trace := trace + [Replace(name, content)];
    }

    method Delete(name: string)
      requires Valid()
      modifies this
      ensures Valid() && trace == old(trace) + [Remove(name)] && disk == old(disk) - {name}
    {
      ApplyOneMore(boot, trace, Remove(name));
      disk := disk - {name};
      trace := trace + [Remove(name)];
    }

    method Emit(message: M)
      requires Valid()
      modifies this
      ensures Valid() && trace == old(trace) + [Send(message)] && disk == old(disk)
    {
      ApplyOneMore(boot, trace, Send(message));
      trace := trace + [Send(message)];
    }
  }
}
