/** The search filter: a case-insensitive substring match on the name, in listing order. */
module Search {
  import opened Text
  import opened Catalog

  /** `p.getNombre().toLowerCase().contains(termino.toLowerCase())` */
  predicate NombreMatches(p: Producto, termino: string) {
    Contains(ToLower(p.nombre), ToLower(termino))
  }

  /** a can be obtained from b by deleting elements, so a keeps b's order. */
  predicate IsSubsequence<T(==)>(a: seq<T>, b: seq<T>)
    decreases |b|
  {
    a == [] || (b != [] && ((a[0] == b[0] && IsSubsequence(a[1..], b[1..])) || IsSubsequence(a, b[1..])))
  }

  /** The stream filter over the listing: the matching records, in the listing's order. */
  function FilterByNombre(rows: seq<Producto>, termino: string): (r: seq<Producto>)
    ensures |r| <= |rows|
    ensures forall p :: p in r <==> p in rows && NombreMatches(p, termino)
    ensures IsSubsequence(r, rows)
  {
    if rows == [] then []
    else
      var rest := FilterByNombre(rows[1..], termino);
      if NombreMatches(rows[0], termino) then [rows[0]] + rest else rest
  }

  /** A listing in which every record matches is returned whole. */
  lemma {:induction false} FilterKeepsAllMatching(rows: seq<Producto>, termino: string)
    requires forall i | 0 <= i < |rows| :: NombreMatches(rows[i], termino)
    ensures FilterByNombre(rows, termino) == rows
  {
    if rows != [] {
      FilterKeepsAllMatching(rows[1..], termino);
    }
  }

  /** The filter over a concatenation is the concatenation of the filters. */
  lemma {:induction false} FilterDistributes(a: seq<Producto>, b: seq<Producto>, termino: string)
    ensures FilterByNombre(a + b, termino) == FilterByNombre(a, termino) + FilterByNombre(b, termino)
  {
    if a == [] {
      assert a + b == b;
    } else {
      assert (a + b)[0] == a[0];
      assert (a + b)[1..] == a[1..] + b;
      FilterDistributes(a[1..], b, termino);
    }
  }

  /** The match ignores ASCII case: "abc" finds "ABCdef". */
  lemma CaseInsensitiveMatch()
    ensures NombreMatches(Producto(1, "ABCdef", 10.0), "abc")
  {
    assert ToLower("ABCdef")[0..3] == "abc" == ToLower("abc");
    assert OccursAt(ToLower("ABCdef"), ToLower("abc"), 0);
  }

  /** The term is matched untrimmed: " abc" does not find "abcdef", which holds no space. */
  lemma UntrimmedTermIsMatched()
    ensures !NombreMatches(Producto(1, "abcdef", 10.0), " abc")
  {
    var s, t := ToLower("abcdef"), ToLower(" abc");
    assert t[0] == ' ';
    forall i | 0 <= i <= |s| - |t| ensures !OccursAt(s, t, i) {
      assert s[i] != ' ';
      assert s[i..i + |t|][0] == s[i];
    }
  }
}
