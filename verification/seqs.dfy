/** Regrouping of concatenations. Each lemma names one bracketing the
    solver does not find on its own when a proof moves between the shape a
    function builds and the shape a contract states. */
module Seqs {
  /** Two parts joined by a separator, however the pieces were bracketed. */
  lemma JoinTwo<T>(a: seq<T>, b: seq<T>, sep: seq<T>, c: seq<T>, d: seq<T>)
    ensures a + b + (sep + c) + d == (a + b) + sep + (c + d)
    ensures a + (b + sep) + c + d == (a + b) + sep + (c + d)
  {
  }

  /** Three parts joined by a separator, however the pieces were bracketed. */
  lemma JoinThree<T>(a: seq<T>, b: seq<T>, sep: seq<T>, c: seq<T>, d: seq<T>, e: seq<T>, f: seq<T>)
    ensures a + b + (sep + c) + d + (sep + e) + f == (a + b) + sep + ((c + d) + sep + (e + f))
    ensures a + (b + sep) + c + (d + sep) + e + f == (a + b) + sep + ((c + d) + sep + (e + f))
  {
  }

  /** The tail after the first separator element. */
  lemma SplitAtFirst<T>(a: seq<T>, b: seq<T>, c: seq<T>, x: T)
    ensures a + [x] + b + [x] + c == a + [x] + (b + [x] + c)
  {
  }

  /** A path of four separated segments, bracketed from the right. */
  lemma PathFromRight<T>(s: seq<T>, a: seq<T>, j: seq<T>, id: seq<T>, act: seq<T>)
    ensures s + a + s + j + s + id + (s + act) == [] + s + (a + s + (j + s + (id + s + act)))
  {
  }

  lemma AppendTwo<T>(xs: seq<T>, a: T, b: T)
    ensures xs + [a] + [b] == xs + [a, b]
  {
  }

  lemma ConsTwo<T>(a: T, b: T, xs: seq<T>, t: T, e: T)
    ensures [a] + ([b] + (xs + [t, e])) == [a, b] + xs + [t, e]
  {
  }

  lemma ConsThree<T>(a: T, b: T, c: T, xs: seq<T>, t: T, e: T)
    ensures [a] + ([b, c] + xs + [t, e]) == [a, b, c] + xs + [t, e]
  {
  }
}
