/** The fixed-capacity window over an array. */
module Ring {
  import opened Prelude

  /** The newest cap elements of a sequence. */
  function Window<T>(all: seq<T>, cap: nat): (w: seq<T>)
    ensures |w| == if |all| <= cap then |all| else cap
  {
    if |all| <= cap then all else all[|all| - cap..]
  }

  /** Pushing through a window keeps the window of everything pushed. */
  lemma WindowOfWindow<T>(all: seq<T>, cap: nat, x: T)
    ensures Window(Window(all, cap) + [x], cap) == Window(all + [x], cap)
  {
    if |all| > cap {
      assert (all[|all| - cap..] + [x])[|Window(all, cap) + [x]| - cap..] == (all + [x])[|all + [x]| - cap..];
    }
  }

  class Ring<T(0)> {
    var buf: array<T>
    var next: nat
    var full: bool

    ghost predicate Valid()
      reads this, buf
    {
      buf.Length >= 1 && next < buf.Length
    }

    /** The retained entries, oldest first. */
    ghost function Contents(): seq<T>
      requires Valid()
      reads this, buf
    {
      if full then buf[next..] + buf[..next] else buf[..next]
    }

    constructor (capacity: int)
      ensures Valid() && fresh(buf) && Contents() == []
      ensures buf.Length == if capacity < 1 then 1 else capacity
    {
      buf := new T[if capacity < 1 then 1 else capacity];
      next, full := 0, false;
    }

    method Push(v: T)
      requires Valid()
      modifies this, buf
      ensures Valid() && buf == old(buf)
      ensures Contents() == Window(old(Contents()) + [v], buf.Length)
    {
      ghost var before := Contents();
      buf[next] := v;
      next := next + 1;
      if next == buf.Length {
        next, full := 0, true;
      }
      assert Contents() == Window(before + [v], buf.Length) by {
        if full {
          assert |Contents()| == buf.Length;
          assert forall i :: 0 <= i < |Contents()| ==> Contents()[i] == Window(before + [v], buf.Length)[i];
        }
      }
    }

    /** Reads the contents in order, whether or not the array has wrapped. */
    method Each() returns (visited: seq<T>)
      requires Valid()
      ensures visited == Contents()
    {
      visited := [];
      if full {
        for i := next to buf.Length
          invariant visited == buf[next..i]
        {
          visited := visited + [buf[i]];
        }
      }
      ghost var head := visited;
      for i := 0 to next
        invariant visited == head + buf[..i]
      {
        visited := visited + [buf[i]];
      }
    }

    /** The end of the contents, if there is one. */
    method Last() returns (newest: Option<T>)
      requires Valid()
      ensures newest == if Contents() == [] then None else Some(Contents()[|Contents()| - 1])
    {
      if next > 0 { return Some(buf[next - 1]); }
      if full { return Some(buf[buf.Length - 1]); }
      return None;
    }
  }
}
