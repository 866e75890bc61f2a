/** Change events, the visible map they edit, and what a watcher on a path is sent. */
module Events {
  import opened Paths

  datatype Action = Update | Delete

  datatype Event = Event(action: Action, path: Path, value: string)

  /** One event applied to a map of visible leaves. `None` marks an event that is no change at
      all: deleting a leaf that is absent, writing the value already there, writing at the root, or
      writing a key above or below another leaf. */
  ghost function Edit(v: map<Path, string>, e: Event): (r: Option<map<Path, string>>) {
    match e.action
    case Delete => if e.path in v then Some(v - {e.path}) else None
    case Update =>
      if e.path == [] || (e.path in v && v[e.path] == e.value) || !PrefixFree(v[e.path := e.value]) then None
      else Some(v[e.path := e.value])
  }

  /** A sequence of events applied in order; `None` as soon as one of them changes nothing. */
  ghost function Play(v: map<Path, string>, es: seq<Event>): (r: Option<map<Path, string>>) {
    if es == [] then Some(v)
    else
      match Play(v, es[..|es| - 1])
      case None => None
      case Some(u) => Edit(u, es[|es| - 1])
  }

  lemma PlayOne(v: map<Path, string>, es: seq<Event>, e: Event)
    ensures Play(v, es + [e]) == match Play(v, es) case None => None case Some(u) => Edit(u, e)
  {
  }

  /** Playing a log is playing its first part and then the rest. */
  lemma {:induction false} PlayConcat(v: map<Path, string>, a: seq<Event>, b: seq<Event>)
    ensures Play(v, a + b) == match Play(v, a) case None => None case Some(u) => Play(u, b)
  {
    if b == [] {
      assert a + b == a;
    } else {
      PlayConcat(v, a, b[..|b| - 1]);
      assert (a + b)[..|a + b| - 1] == a + b[..|b| - 1];
    }
  }

  /** Every prefix of a playable log is playable, and editing never nests two leaves. */
  lemma {:induction false} PlayPrefix(v: map<Path, string>, es: seq<Event>, i: nat)
    requires i <= |es| && Play(v, es).Some? && PrefixFree(v)
    ensures Play(v, es[..i]).Some? && PrefixFree(Play(v, es[..i]).value)
  {
    if es == [] {
      assert es[..i] == es;
    } else {
      PlayPrefix(v, es[..|es| - 1], if i == |es| then i - 1 else i);
      if i == |es| {
        assert es[..i] == es;
        assert es[..|es| - 1][..i - 1] == es[..|es| - 1];
      } else {
        assert es[..|es| - 1][..i] == es[..i];
      }
    }
  }

  /** What a watcher at `p` is sent: the events at or below `p`, in order, with their paths
      taken relative to `p`. */
  ghost function Route(es: seq<Event>, p: Path): (r: seq<Event>) {
    if es == [] then []
    else
      var e := es[|es| - 1];
      Route(es[..|es| - 1], p) + if p <= e.path then [e.(path := e.path[|p|..])] else []
  }

  lemma RouteSnoc(es: seq<Event>, e: Event, p: Path)
    ensures Route(es + [e], p) == Route(es, p) + if p <= e.path then [e.(path := e.path[|p|..])] else []
  {
  }

  lemma RouteOne(es: seq<Event>, e: Event, start: nat, p: Path)
    requires start <= |es|
    ensures Route((es + [e])[start..], p)
         == Route(es[start..], p) + if p <= e.path then [e.(path := e.path[|p|..])] else []
  {
    hide Route;
    assert (es + [e])[start..] == es[start..] + [e];
    RouteSnoc(es[start..], e, p);
  }

  /** A watcher at the root is sent everything, with the paths as they are. */
  lemma {:induction false} RouteRoot(es: seq<Event>)
    ensures Route(es, []) == es
  {
    if es != [] {
      RouteRoot(es[..|es| - 1]);
      assert es == es[..|es| - 1] + [es[|es| - 1]];
    }
  }

  /** Events are sent in the order of the log. */
  lemma {:induction false} RouteConcat(a: seq<Event>, b: seq<Event>, p: Path)
    ensures Route(a + b, p) == Route(a, p) + Route(b, p)
    decreases |b|
  {
    if b == [] {
      assert a + b == a;
    } else {
      RouteConcat(a, b[..|b| - 1], p);
      assert (a + b)[..|a + b| - 1] == a + b[..|b| - 1];
    }
  }

  /** The events sent to a watcher at `p` are those at or below it, with their paths from `p` on. */
  lemma {:induction false} RouteExactly(es: seq<Event>, p: Path)
    ensures forall e :: e in Route(es, p) <==> e.(path := p + e.path) in es
    decreases |es|
  {
    if es != [] {
      var before, f := es[..|es| - 1], es[|es| - 1];
      RouteExactly(before, p);
      assert es == before + [f];
      forall e: Event
        ensures e in Route(es, p) <==> e.(path := p + e.path) in es
      {
        if p <= f.path {
          assert p + f.path[|p|..] == f.path;
          assert (p + e.path)[|p|..] == e.path;
        } else {
          assert p <= p + e.path;
        }
      }
    }
  }
}
