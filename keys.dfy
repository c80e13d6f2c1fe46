/** Generation of child keys, as the store's `push` does it. */
module Keys {

  /** A key that no child of `m` has yet: one longer than every existing key. */
  method FreshKey<V>(m: map<string, V>) returns (k: string)
    ensures k !in m
  {
    var pending := m.Keys;
    var n: nat := 0;
    while pending != {}
      invariant pending <= m.Keys
      invariant forall x :: x in m && x !in pending ==> |x| < n
      decreases |pending|
    {
      var x :| x in pending;
      if |x| >= n {
        n := |x| + 1;
      }
      pending := pending - {x};
    }
    k := seq(n, _ => '-');
  }
}
