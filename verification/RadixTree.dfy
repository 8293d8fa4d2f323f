/** Prefix trees as values: what inserting and finding mean, and that together
    they behave like a map from non-empty strings to values. */
module PrefixTrees {
  const PREFIX_SIZE: nat := 4
  const RADIX_TREE_NONE: nat := 0xFFFF_FFFF

  /** An edge list: the first edge, with the list reached through it and the edges
      that follow it on the same level. */
  datatype Tree = Nil | Edge(prefix: string, value: nat, child: Tree, next: Tree)

  /** An empty edge list. */
  const FRESH: Tree := Edge("", RADIX_TREE_NONE, Nil, Nil)

  /** The number of leading characters two strings share. */
  function Common(a: string, b: string): (n: nat)
    ensures n <= |a| && n <= |b| && a[..n] == b[..n]
    ensures n == |a| || n == |b| || a[n] != b[n]
  {
    if a == "" || b == "" || a[0] != b[0] then 0
    else
      var n := Common(a[1..], b[1..]);
      assert a[..n + 1] == [a[0]] + a[1..][..n];
      assert b[..n + 1] == [b[0]] + b[1..][..n];
      n + 1
  }

  predicate Heads(k: string, t: Tree) {
    t.Edge? && if t.prefix == "" then k == "" else k != "" && k[0] == t.prefix[0]
  }

  function Find(t: Tree, k: string): nat {
    if t.Nil? then RADIX_TREE_NONE
    else if !Heads(k, t) then Find(t.next, k)
    else if !(t.prefix <= k) then RADIX_TREE_NONE
    else if k == t.prefix then t.value
    else Find(t.child, k[|t.prefix|..])
  }

  /** One step of the search. */
  lemma FindUnfolds(t: Tree, k: string)
    requires t.Edge?
    ensures Find(t, k) ==
              if !Heads(k, t) then Find(t.next, k)
              else if !(t.prefix <= k) then RADIX_TREE_NONE
              else if k == t.prefix then t.value
              else Find(t.child, k[|t.prefix|..])
  {}

  lemma NilFinds(k: string)
    ensures Find(Nil, k) == RADIX_TREE_NONE
  {}

  function OrFresh(t: Tree): Tree { if t.Nil? then FRESH else t }

  function Rank(t: Tree): nat {
    if t.Edge? && t.prefix != "" then Rank(t.next) + 1 else 0
  }

  function Insert(t: Tree, k: string, v: nat): Tree
    requires t.Edge? && k != ""
    decreases |k|, Rank(t)
  {
    if t.prefix == "" then
      if |k| <= PREFIX_SIZE then t.(prefix := k, value := v)
      else t.(prefix := k[..PREFIX_SIZE], child := Insert(FRESH, k[PREFIX_SIZE..], v))
    else if k[0] == t.prefix[0] then
      var n := Common(k, t.prefix);
      if n < |t.prefix| then
        var lower := Edge(t.prefix[n..], t.value, t.child, Nil);
        if n == |k| then Edge(k, v, lower, t.next)
        else Edge(t.prefix[..n], RADIX_TREE_NONE, Insert(lower, k[n..], v), t.next)
      else if n == |k| then t.(value := v)
      else t.(child := Insert(OrFresh(t.child), k[n..], v))
    else t.(next := Insert(OrFresh(t.next), k, v))
  }

  /* ----- structure ----- */

  /** No edge of this list starts with character c. */
  predicate Lacks(t: Tree, c: char) {
    t.Nil? || ((t.prefix == "" || t.prefix[0] != c) && Lacks(t.next, c))
  }

  /** Prefixes have one to four characters, and edges side by side start with
      different characters. */
  predicate WellFormed(t: Tree) {
    t.Nil? || (1 <= |t.prefix| <= 4 && Lacks(t.next, t.prefix[0]) && WellFormed(t.child) && WellFormed(t.next))
  }

  predicate Valid(t: Tree) { t == FRESH || (t.Edge? && WellFormed(t)) }

  lemma {:induction false} InsertKeepsLacks(t: Tree, k: string, v: nat, c: char)
    requires t.Edge? && k != "" && Lacks(t, c) && k[0] != c
    ensures Lacks(Insert(t, k, v), c)
    decreases Rank(t)
  {
    if t.prefix != "" && k[0] != t.prefix[0] {
      InsertKeepsLacks(OrFresh(t.next), k, v, c);
    }
  }

  /** Inserting keeps the tree well formed, through splits, extensions and appends. */
  lemma {:induction false} InsertKeepsWellFormed(t: Tree, k: string, v: nat)
    requires Valid(t) && k != ""
    ensures Insert(t, k, v).Edge? && WellFormed(Insert(t, k, v))
    decreases |k|, Rank(t)
  {
    if t.prefix == "" {
      if |k| > PREFIX_SIZE {
        InsertKeepsWellFormed(FRESH, k[PREFIX_SIZE..], v);
      }
    } else if k[0] == t.prefix[0] {
      var n := Common(k, t.prefix);
      if n < |t.prefix| && n < |k| {
        InsertKeepsWellFormed(Edge(t.prefix[n..], t.value, t.child, Nil), k[n..], v);
      } else if n < |k| {
        InsertKeepsWellFormed(OrFresh(t.child), k[n..], v);
      }
    } else {
      InsertKeepsWellFormed(OrFresh(t.next), k, v);
      InsertKeepsLacks(OrFresh(t.next), k, v, t.prefix[0]);
    }
  }

  /* ----- meaning ----- */

  lemma {:induction false} FindLacking(t: Tree, k: string)
    requires WellFormed(t) && (k == "" || Lacks(t, k[0]))
    ensures Find(t, k) == RADIX_TREE_NONE
  {
    if t.Nil? {
    } else {
      FindLacking(t.next, k);
    }
  }

  /** Finding after inserting: the new value for the key, the old one for others. */
  lemma {:induction false} FindInsert(t: Tree, k: string, v: nat, k': string)
    requires Valid(t) && k != ""
    ensures Find(Insert(t, k, v), k') == if k' == k then v else Find(t, k')
    decreases |k|, Rank(t)
  {
    InsertKeepsWellFormed(t, k, v);
    if t.prefix == "" {
      if |k| > PREFIX_SIZE && k[..PREFIX_SIZE] <= k' {
        assert k == k[..PREFIX_SIZE] + k[PREFIX_SIZE..] && k' == k[..PREFIX_SIZE] + k'[PREFIX_SIZE..];
        FindInsert(FRESH, k[PREFIX_SIZE..], v, k'[PREFIX_SIZE..]);
        FindFresh(k'[PREFIX_SIZE..]);
      }
      FindFresh(k');
    } else if k[0] == t.prefix[0] {
      FindInsertHere(t, k, v, k');
    } else {
      FindInsert(OrFresh(t.next), k, v, k');
      FindFresh(k');
    }
  }

  lemma FindFresh(k: string)
    ensures Find(FRESH, k) == RADIX_TREE_NONE
  {}

  /** The case where the key and this edge share their first character. */
  lemma {:induction false} FindInsertHere(t: Tree, k: string, v: nat, k': string)
    requires WellFormed(t) && t.Edge? && t.prefix != "" && k != "" && k[0] == t.prefix[0]
    ensures Find(Insert(t, k, v), k') == if k' == k then v else Find(t, k')
    decreases |k|, Rank(t), 0
  {
    hide WellFormed;
    var n := Common(k, t.prefix);
    assert n > 0 && k[..n] == t.prefix[..n];
    if k' == "" || k'[0] != k[0] {
    } else if !(k[..n] <= k') {
      ShorterPrefix(k, n, k');
      ShorterPrefix(t.prefix, n, k');
    } else if n < |t.prefix| {
      var lower := Edge(t.prefix[n..], t.value, t.child, Nil);
      assert Valid(lower) by { LowerIsValid(t, n); }
      SplitFind(t, n, k');
      assert k' == k[..n] + k'[n..] && k == k[..n] + k[n..];
      if n < |k| {
        FindInsert(lower, k[n..], v, k'[n..]);
      }
    } else if n < |k| {
      assert k' == k[..n] + k'[n..] && k == k[..n] + k[n..] && k[..n] == t.prefix;
      assert Valid(OrFresh(t.child)) by { ChildIsValid(t); }
      FindInsert(OrFresh(t.child), k[n..], v, k'[n..]);
      FindFresh(k'[n..]);
    }
  }

  lemma ShorterPrefix(a: string, n: nat, b: string)
    requires n <= |a| && !(a[..n] <= b)
    ensures !(a <= b)
  {}

  lemma LowerIsValid(t: Tree, n: nat)
    requires WellFormed(t) && t.Edge? && n < |t.prefix|
    ensures Valid(Edge(t.prefix[n..], t.value, t.child, Nil))
  {}

  lemma ChildIsValid(t: Tree)
    requires WellFormed(t) && t.Edge?
    ensures Valid(OrFresh(t.child))
  {}

  /** Splitting an edge does not change what is found. */
  lemma SplitFind(t: Tree, n: nat, k: string)
    requires t.Edge? && 0 < n < |t.prefix| && t.prefix[..n] <= k
    ensures Find(t, k) == Find(Edge(t.prefix[n..], t.value, t.child, Nil), k[n..])
  {
    assert k == t.prefix[..n] + k[n..];
    assert t.prefix == t.prefix[..n] + t.prefix[n..];
    if t.prefix <= k {
      assert k[|t.prefix|..] == k[n..][|t.prefix[n..]|..];
      assert t.prefix[n..] <= k[n..];
    }
  }

  /* ----- sequences of insertions ----- */

  /** Insert an entry; a 0-length string is refused and changes nothing. */
  function InsertOrRefuse(t: Tree, k: string, v: nat): Tree
    requires t.Edge?
  { if k == "" then t else Insert(t, k, v) }

  /** The tree after inserting each entry in turn. */
  function InsertAll(entries: seq<(string, nat)>): (t: Tree)
    ensures Valid(t) && t.Edge?
  {
    if entries == [] then FRESH
    else
      var last := entries[|entries| - 1];
      var t := InsertAll(entries[..|entries| - 1]);
      if last.0 != "" then InsertKeepsWellFormed(t, last.0, last.1); InsertOrRefuse(t, last.0, last.1)
      else InsertOrRefuse(t, last.0, last.1)
  }

  /** The value of the last entry with key k. */
  function LastValue(entries: seq<(string, nat)>, k: string): nat {
    if entries == [] then 0xFFFF_FFFF
    else if entries[|entries| - 1].0 == k then entries[|entries| - 1].1
    else LastValue(entries[..|entries| - 1], k)
  }

  /** The tree is the map from each non-empty key to its last value. */
  lemma {:induction false} FindAfterInserts(entries: seq<(string, nat)>, k: string)
    ensures Find(InsertAll(entries), k) == if k == "" then 0xFFFF_FFFF else LastValue(entries, k)
  {
    if entries == [] {
      FindFresh(k);
    } else {
      var last, before := entries[|entries| - 1], entries[..|entries| - 1];
      FindAfterInserts(before, k);
      if last.0 != "" {
        FindInsert(InsertAll(before), last.0, last.1, k);
      }
    }
  }
}

/** The radix tree in memory: edges linked by pointers and changed in place. */
module RadixTrees {
  import T = PrefixTrees

  const NUL: char := '\0'

  /** Four characters of storage, ended early by a NUL. */
  type Prefix = p: seq<char> | |p| == 4 witness ['\0', '\0', '\0', '\0']

  /** The number of characters before the first NUL. */
  function Length(p: seq<char>): (n: nat)
    ensures n <= |p| && (forall i | 0 <= i < n :: p[i] != '\0') && (n < |p| ==> p[n] == '\0')
  {
    if p == [] || p[0] == NUL then 0 else Length(p[1..]) + 1
  }

  function Content(p: seq<char>): string { p[..Length(p)] }

  lemma ContentIs(p: seq<char>, n: nat)
    requires n <= |p| && (forall i | 0 <= i < n :: p[i] != '\0') && (n < |p| ==> p[n] == '\0')
    ensures Content(p) == p[..n]
  {}

  /** Keys are C strings: characters before a terminating NUL. */
  predicate IsKey(k: string) { forall i | 0 <= i < |k| :: k[i] != '\0' }

  /** The character at position i of a NUL-terminated key. */
  function At(k: string, i: nat): char
    requires i <= |k|
  { if i == |k| then NUL else k[i] }

  class Edge {
    var next: Edge?
    var child: Edge?
    var value: nat
    var prefix: Prefix

    ghost var repr: set<Edge>
    ghost var tree: T.Tree

    ghost predicate Valid()
      reads this, repr
      decreases repr
    {
      && this in repr
      && (child != null ==> child in repr && child.repr <= repr && this !in child.repr && child.Valid())
      && (next != null ==> next in repr && next.repr <= repr && this !in next.repr && next.Valid())
      && (child != null && next != null ==> child.repr !! next.repr)
      && tree == T.Edge(Content(prefix), value, if child == null then T.Nil else child.tree,
                        if next == null then T.Nil else next.tree)
    }

    constructor ()
      ensures Valid() && fresh(repr) && tree == T.FRESH
    {
      next, child, value, prefix := null, null, T.RADIX_TREE_NONE, [NUL, NUL, NUL, NUL];
      repr := {this};
      tree := T.FRESH;
      new;
      ContentIs(prefix, 0);
    }

    /** Insert a key; a 0-length string is refused.  Afterwards the key finds its
        value and every other string what it found before. */
    method Insert(key: string, v: nat)
      requires Valid() && IsKey(key) && T.Valid(tree)
      modifies repr
      ensures Valid() && fresh(repr - old(repr)) && T.Valid(tree)
      ensures tree == T.InsertOrRefuse(old(tree), key, v)
      ensures forall k :: T.Find(tree, k) == if k == key && k != "" then v else T.Find(old(tree), k)
    {
      if key == "" { return; }
      InsertRest(key, 0, v);
      assert key[0..] == key;
      forall k ensures T.Find(tree, k) == if k == key then v else T.Find(old(tree), k) {
        T.FindInsert(old(tree), key, v, k);
      }
      T.InsertKeepsWellFormed(old(tree), key, v);
    }

    /** Insert the rest of a key into this edge list.  The source's jumps back to
        the top of its loop are the calls in tail position. */
    method InsertRest(key: string, k: nat, v: nat)
      requires Valid() && IsKey(key) && k < |key|
      modifies repr
      ensures Valid() && fresh(repr - old(repr))
      ensures tree == T.Insert(old(tree), key[k..], v)
      decreases |key| - k, T.Rank(tree), 0
    {
      hide Content, Valid;
      Shape();
      HeadIs(prefix, key, k);
      if prefix[0] == NUL {
        // An empty edge: take up to four characters.
        var n := Fill(key, k);
        Slices(key, k, n);
        if k + n == |key| {
          SetValue(v);
        } else {
          InsertBelow(key, k + n, v, true);
        }
      } else if At(key, k) == prefix[0] {
        InsertHere(key, k, v);
      } else {
        InsertBeside(key, k, v);
      }
    }

    /** The key starts like this edge: go on below it, splitting it if the key
        leaves it in the middle. */
    method InsertHere(key: string, k: nat, v: nat)
      requires Valid() && IsKey(key) && k < |key|
      requires tree.prefix != "" && key[k] == tree.prefix[0]
      modifies repr
      ensures Valid() && fresh(repr - old(repr))
      ensures tree == T.Insert(old(tree), key[k..], v)
      decreases |key| - k, 0, 0
    {
      hide Content, Valid;
      Shape();
      var n, whole := Consume(prefix, key, k);
      Slices(key, k, n);
      if !whole {
        Split(n);
      }
      if k + n == |key| {
        SetValue(v);
      } else {
        InsertBelow(key, k + n, v, false);
      }
    }

    lemma Shape()
      requires Valid()
      ensures this in repr && tree.Edge? && tree.prefix == Content(prefix)
    {}

    method SetValue(v: nat)
      requires Valid()
      modifies this
      ensures Valid() && repr == old(repr) && tree == old(tree).(value := v)
    {
      hide Content;
      value := v;
      tree := tree.(value := v);
    }

    /** Insert into the list reached through this edge, starting it if needed. */
    method InsertBelow(key: string, k: nat, v: nat, startOver: bool)
      requires Valid() && IsKey(key) && k < |key|
      modifies repr
      ensures Valid() && fresh(repr - old(repr))
      ensures tree == old(tree).(child :=
                T.Insert(if startOver then T.FRESH else T.OrFresh(old(tree.child)), key[k..], v))
      decreases |key| - k, T.Rank(if startOver then T.FRESH else T.OrFresh(tree.child)), 1
    {
      hide Content, T.Insert;
      if startOver || child == null { child := new Edge(); }
      child.InsertRest(key, k, v);
      repr := repr + child.repr;
      tree := tree.(child := child.tree);
    }

    /** Insert into the edges after this one, adding an empty one at the end. */
    method InsertBeside(key: string, k: nat, v: nat)
      requires Valid() && IsKey(key) && k < |key|
      modifies repr
      ensures Valid() && fresh(repr - old(repr))
      ensures tree == old(tree).(next := T.Insert(T.OrFresh(old(tree.next)), key[k..], v))
      decreases |key| - k, T.Rank(T.OrFresh(tree.next)), 1
    {
      hide Content, T.Insert;
      if next == null { next := new Edge(); }
      next.InsertRest(key, k, v);
      repr := repr + next.repr;
      tree := tree.(next := next.tree);
    }

    /** Copy up to four characters of the key into the prefix, and its NUL if it
        comes first. */
    method Fill(key: string, k: nat) returns (n: nat)
      requires Valid() && IsKey(key) && k < |key|
      modifies this
      ensures Valid() && repr == old(repr)
      ensures n == (if |key| - k <= 4 then |key| - k else 4)
      ensures tree == old(tree).(prefix := key[k..k + n])
    {
      hide Content;
      prefix, n := Filled(prefix, key, k);
      tree := tree.(prefix := key[k..k + n]);
    }

    /** Move everything below position n of the prefix into a new child edge. */
    method Split(n: nat)
      requires Valid() && 0 < n < |tree.prefix|
      modifies this
      ensures Valid() && fresh(repr - old(repr))
      ensures var t := old(tree);
              tree == T.Edge(t.prefix[..n], T.RADIX_TREE_NONE, T.Edge(t.prefix[n..], t.value, t.child, T.Nil), t.next)
    {
      hide Content;
      ghost var t := tree;
      var lower := new Edge();
      var tail := Tail(prefix, n);
      lower.Become(child, value, tail, t.prefix[n..]);
      value, child := T.RADIX_TREE_NONE, lower;
      CutIs(prefix, n);
      prefix := prefix[n := NUL];
      repr := repr + {lower};
      tree := T.Edge(t.prefix[..n], T.RADIX_TREE_NONE, lower.tree, t.next);
    }

    /** Take over a child list and a value under a new prefix. */
    method Become(child: Edge?, value: nat, prefix: Prefix, ghost content: string)
      requires child != null ==> child.Valid() && this !in child.repr
      requires Content(prefix) == content && next == null
      modifies this
      ensures Valid() && repr == {this} + (if child == null then {} else child.repr)
      ensures tree == T.Edge(content, value, if child == null then T.Nil else child.tree, T.Nil)
      ensures next == null && this.child == child
    {
      hide Content;
      this.value, this.child, this.prefix := value, child, prefix;
      repr := {this} + (if child == null then {} else child.repr);
      tree := T.Edge(content, value, if child == null then T.Nil else child.tree, T.Nil);
    }

    /** Look a key up by walking the pointers. */
    method Find(key: string) returns (v: nat)
      requires Valid() && IsKey(key)
      ensures v == T.Find(tree, key)
    {
      hide T.Find;
      var k: nat := 0;
      var e: Edge? := this;
      assert key[0..] == key;
      while e != null
        invariant k <= |key|
        invariant e != null ==> e.Valid() && T.Find(tree, key) == T.Find(e.tree, key[k..])
        invariant e == null ==> T.Find(tree, key) == T.RADIX_TREE_NONE
        decreases if e == null then {} else e.repr
      {
        HeadIs(e.prefix, key, k);
        e.Shape();
        T.FindUnfolds(e.tree, key[k..]);
        if At(key, k) == e.prefix[0] {
          var n, whole := Consume(e.prefix, key, k);
          if !whole { return T.RADIX_TREE_NONE; }
          Slices(key, k, n);
          T.NilFinds(key[k..][n..]);
          k := k + n;
          if k == |key| { return e.value; }
          e := e.child;
        } else {
          T.NilFinds(key[k..]);
          e := e.next;
        }
      }
      v := T.RADIX_TREE_NONE;
    }
  }

  /** Comparing the key's character with the prefix's first also covers an empty
      prefix and a finished key, which both show a NUL. */
  lemma HeadIs(p: Prefix, key: string, k: nat)
    requires IsKey(key) && k <= |key|
    ensures p[0] == NUL <==> Content(p) == ""
    ensures At(key, k) == p[0] <==>
              if Content(p) == "" then key[k..] == "" else key[k..] != "" && key[k] == Content(p)[0]
  {}

  /** Copy up to four characters of the key, and its NUL if it comes first. */
  method Filled(p: Prefix, key: string, k: nat) returns (p': Prefix, n: nat)
    requires IsKey(key) && k < |key|
    ensures n == (if |key| - k <= 4 then |key| - k else 4)
    ensures Content(p') == key[k..k + n]
  {
    p', n := p, 0;
    while n < T.PREFIX_SIZE
      invariant n <= T.PREFIX_SIZE && k + n <= |key|
      invariant forall j | 0 <= j < n :: p'[j] == key[k + j]
    {
      p' := p'[n := At(key, k + n)];
      if At(key, k + n) == NUL { break; }
      n := n + 1;
    }
    ContentIs(p', n);
  }

  /** Copy the rest of a prefix, from position n, to the front of another. */
  method Tail(p: Prefix, n: nat) returns (p': Prefix)
    requires 0 < n < |Content(p)|
    ensures Content(p') == Content(p)[n..]
  {
    p' := [NUL, NUL, NUL, NUL];
    var o := n;
    while o < T.PREFIX_SIZE && p[o] != NUL
      invariant n <= o <= |Content(p)|
      invariant forall j | 0 <= j < o - n :: p'[j] == p[n + j]
    {
      p' := p'[o - n := p[o]];
      o := o + 1;
    }
    p' := p'[o - n := NUL];
    ContentIs(p', o - n);
  }

  lemma CutIs(p: Prefix, n: nat)
    requires n < |Content(p)|
    ensures n < |p| && Content(p[n := NUL]) == Content(p)[..n]
  {
    ContentIs(p[n := NUL], n);
  }

  lemma Slices(key: string, k: nat, n: nat)
    requires k + n <= |key|
    ensures key[k..][..n] == key[k..k + n] && key[k..][n..] == key[k + n..]
    ensures k + n == |key| ==> key[k..k + n] == key[k..]
  {}

  /** Advance over the prefix while the key agrees with it. */
  method Consume(p: Prefix, key: string, k: nat) returns (n: nat, whole: bool)
    requires IsKey(key) && k <= |key|
    ensures n == T.Common(key[k..], Content(p)) && k + n <= |key|
    ensures whole <==> Content(p) <= key[k..]
    ensures whole <==> n == |Content(p)|
  {
    var rest := key[k..];
    n := 0;
    while n < T.PREFIX_SIZE && p[n] != NUL
      invariant n <= T.PREFIX_SIZE && n <= |rest|
      invariant forall j | 0 <= j < n :: p[j] != NUL && p[j] == rest[j]
    {
      if At(key, k + n) != p[n] {
        CommonIs(rest, Content(p), n);
        return n, false;
      }
      n := n + 1;
    }
    ContentIs(p, n);
    CommonIs(rest, Content(p), n);
    whole := true;
  }

  lemma {:induction false} CommonIs(a: string, b: string, n: nat)
    requires n <= |a| && n <= |b| && forall j | 0 <= j < n :: a[j] == b[j]
    requires n == |a| || n == |b| || a[n] != b[n]
    ensures T.Common(a, b) == n
    ensures n < |b| ==> !(b <= a)
  {
    if n == 0 {
    } else {
      CommonIs(a[1..], b[1..], n - 1);
    }
  }

  /** A table of strings in rows of one width, each ended by a NUL in its row. */
  predicate IsTable(rows: seq<seq<char>>, width: nat) {
    forall i | 0 <= i < |rows| :: |rows[i]| == width && Length(rows[i]) < width
  }

  /** The ids of a table with their indexes. */
  function Entries(rows: seq<seq<char>>): (entries: seq<(string, nat)>)
    ensures |entries| == |rows|
  {
    if rows == [] then []
    else Entries(rows[..|rows| - 1]) + [(Content(rows[|rows| - 1]), |rows| - 1)]
  }

  /** The last entry for a row's id is its last row. */
  lemma {:induction false} LastRow(rows: seq<seq<char>>, idx: nat)
    requires idx < |rows| && forall i | idx < i < |rows| :: Content(rows[i]) != Content(rows[idx])
    ensures T.LastValue(Entries(rows), Content(rows[idx])) == idx
  {
    var n, entries := |rows| - 1, Entries(rows);
    assert entries[..n] == Entries(rows[..n]);
    if idx < n { LastRow(rows[..n], idx); }
  }

  /** Index a table of ids: each id then finds its last index. */
  method LoadStrings(rows: seq<seq<char>>, width: nat) returns (root: Edge)
    requires IsTable(rows, width)
    ensures root.Valid() && T.Valid(root.tree)
    ensures forall k: string ::
              T.Find(root.tree, k) == if k == "" then 0xFFFF_FFFF else T.LastValue(Entries(rows), k)
    ensures forall idx | 0 <= idx < |rows| && Content(rows[idx]) != ""
                         && (forall i | idx < i < |rows| :: Content(rows[i]) != Content(rows[idx])) ::
              T.Find(root.tree, Content(rows[idx])) == idx
  {
    hide T.LastValue, Entries, Edge.Valid, T.Find, T.WellFormed;
    root := new Edge();
    assert rows[..0] == [];
    for idx := 0 to |rows|
      invariant root.Valid() && fresh(root.repr)
      invariant T.Valid(root.tree) && root.tree == T.InsertAll(Entries(rows[..idx]))
    {
      EntriesGrow(rows, idx);
      root.Insert(Content(rows[idx]), idx);
    }
    assert rows[..|rows|] == rows;
    forall k: string
      ensures T.Find(root.tree, k) == if k == "" then 0xFFFF_FFFF else T.LastValue(Entries(rows), k)
    {
      T.FindAfterInserts(Entries(rows), k);
    }
    forall idx | 0 <= idx < |rows| && Content(rows[idx]) != ""
                 && (forall i | idx < i < |rows| :: Content(rows[i]) != Content(rows[idx]))
      ensures T.Find(root.tree, Content(rows[idx])) == idx
    {
      LastRow(rows, idx);
    }
  }

  lemma EntriesGrow(rows: seq<seq<char>>, n: nat)
    requires n < |rows|
    ensures T.InsertAll(Entries(rows[..n + 1])) ==
            T.InsertOrRefuse(T.InsertAll(Entries(rows[..n])), Content(rows[n]), n)
  {
    var entries := Entries(rows[..n + 1]);
    assert rows[..n + 1][..n] == rows[..n];
    assert entries[..|entries| - 1] == Entries(rows[..n]);
  }
}
