/** Command lookup along the path with a table of hash bits (exec.c): a directory is only looked at if the bit for
    the name and the directory's place in the path is set. */
module PathHash {
  import opened Common
  import opened Strings

  const HSHSIZ := 8192
  const HSHMUL := 243
  const SLASH := '/' as int
  const DOT := '.' as int

  /** What readdir reports: a name, and whether its entry is in use. */
  datatype Entry = Entry(used: bool, name: Word)

  /** opendir and readdir; and whether a path names a file that can be executed. */
  datatype World = World(listing: Word -> Option<seq<Entry>>, runs: Word -> bool)

  /** hash; masking a number in two's complement leaves its remainder. */
  function Hash(a: int, b: int): (h: nat)
    ensures h < HSHSIZ
  {
    (a * HSHMUL + b) % HSHSIZ
  }

  function NameFrom(name: Word, i: nat, h: nat): (r: nat)
    requires i <= |name| && h < HSHSIZ
    ensures r < HSHSIZ
    decreases |name| - i
  {
    if i < |name| then NameFrom(name, i + 1, Hash(h, name[i])) else h
  }

  function NameHash(name: Word): (r: nat)
    ensures r < HSHSIZ
  {
    NameFrom(name, 0, 0)
  }

  method Hashname(cp: Word) returns (h: nat)
    ensures h == NameHash(cp)
  {
    h := 0;
    var i := 0;
    while i < |cp|
      invariant i <= |cp| && h < HSHSIZ && NameFrom(cp, i, h) == NameHash(cp)
    {
      h := Hash(h, cp[i]);
      i := i + 1;
    }
  }

  // ---------------------------------------------------------------- bits

  /** The byte with only bit k set. */
  function Mask(k: nat): bv8
    requires k < 8
  {
    if k == 0 then 1 else if k == 1 then 2 else if k == 2 then 4 else if k == 3 then 8
    else if k == 4 then 16 else if k == 5 then 32 else if k == 6 then 64 else 128
  }

  predicate Bit(table: seq<bv8>, h: nat)
    requires h < 8 * |table|
  {
    table[h / 8] & Mask(h % 8) != 0
  }

  lemma SetsOne(v: bv8, k: nat, l: nat)
    requires k < 8 && l < 8
    ensures (Mask(k) | v) & Mask(l) != 0 <==> k == l || v & Mask(l) != 0
  {
  }

  /** bis sets its bit and no other. */
  lemma BisAt(table: seq<bv8>, h: nat, g: nat)
    requires h < 8 * |table| && g < 8 * |table|
    ensures Bit(table[h / 8 := Mask(h % 8) | table[h / 8]], g) <==> g == h || Bit(table, g)
  {
    if g / 8 == h / 8 {
      SetsOne(table[h / 8], h % 8, g % 8);
      SameIndex(g, h);
    }
    hide Mask;
  }

  lemma SameIndex(g: nat, h: nat)
    requires g / 8 == h / 8
    ensures g % 8 == h % 8 <==> g == h
  {
  }

  // ---------------------------------------------------------------- what dohash enters

  /** The entries dohash passes over. */
  predicate Dots(name: Word) {
    name == [DOT] || name == [DOT, DOT]
  }

  predicate Rooted(dir: Word) {
    At(dir, 0) == SLASH
  }

  predicate Counts(e: Entry) {
    e.used && !Dots(e.name)
  }

  /** A bit that one of the first n entries of directory i sets. */
  ghost predicate Entered(es: seq<Entry>, n: nat, i: nat, h: nat)
    requires n <= |es|
  {
    exists k :: 0 <= k < n && Counts(es[k]) && Hash(NameHash(es[k].name), i) == h
  }

  function Listing(w: World, dir: Word): seq<Entry> {
    if Rooted(dir) && w.listing(dir).Some? then w.listing(dir).value else []
  }

  /** A bit that one of the first n directories sets. */
  ghost predicate Hashed(w: World, path: seq<Word>, n: nat, h: nat)
    requires n <= |path|
  {
    exists i :: 0 <= i < n && Entered(Listing(w, path[i]), |Listing(w, path[i])|, i, h)
  }

  lemma HashedMore(w: World, path: seq<Word>, n: nat, h: nat)
    requires n < |path|
    ensures Hashed(w, path, n + 1, h)
            <==> Hashed(w, path, n, h) || Entered(Listing(w, path[n]), |Listing(w, path[n])|, n, h)
  {
    hide Entered, Listing;
  }

  lemma EnteredMore(es: seq<Entry>, n: nat, i: nat, h: nat)
    requires n < |es|
    ensures Entered(es, n + 1, i, h)
            <==> Entered(es, n, i, h) || (Counts(es[n]) && Hash(NameHash(es[n].name), i) == h)
  {
    hide Counts, Hash;
  }

  // ---------------------------------------------------------------- looking up

  /** The directories to look in: only the name itself if there is no path or the name has a slash. */
  function Places(path: Option<seq<Word>>, name: Word): (places: seq<Word>)
    ensures places != []
  {
    if path.None? || path.value == [] || SLASH in name then [[]] else path.value
  }

  predicate Runs(w: World, dir: Word, name: Word) {
    w.runs(if dir == [] || dir == [DOT] then name else dir + [SLASH] + name)
  }

  /** In a directory other than the current one the file is the directory, a slash, and the name. */
  lemma RunsWhere(w: World, dir: Word, name: Word)
    ensures Rooted(dir) ==> (Runs(w, dir, name) <==> w.runs(dir + ['/' as int] + name))
    ensures dir == [] || dir == ['.' as int] ==> (Runs(w, dir, name) <==> w.runs(name))
  {
  }

  /** The first directory that holds an executable of that name, from 1, or 0. */
  function Plain(w: World, places: seq<Word>, name: Word, i: nat): (r: nat)
    requires i <= |places|
    ensures r == 0 || (i < r <= |places| && Runs(w, places[r - 1], name))
    ensures forall j :: i <= j < (if r == 0 then |places| else r - 1) ==> !Runs(w, places[j], name)
    decreases |places| - i
  {
    if i == |places| then 0 else if Runs(w, places[i], name) then i + 1 else Plain(w, places, name, i + 1)
  }

  /** A name with a slash, or without a path to search, is tried as it stands; any other name is tried in the
      directories of the path, and the first that has it counts. */
  lemma WhereTried(w: World, path: Option<seq<Word>>, name: Word)
    ensures var r := Plain(w, Places(path, name), name, 0);
            if '/' as int in name || path.None? || |path.value| == 0 then r == if w.runs(name) then 1 else 0
            else && (r == 0 <==> forall dir <- path.value :: !Runs(w, dir, name))
                 && (r > 0 ==> r <= |path.value| && Runs(w, path.value[r - 1], name)
                               && forall j :: 0 <= j < r - 1 ==> !Runs(w, path.value[j], name))
  {
    var places := Places(path, name);
    var r := Plain(w, places, name, 0);
    assert r > 0 ==> places[r - 1] in places;
  }

  /** Directories are what their listings say: an executable is an entry in use. */
  ghost predicate Listed(w: World, dir: Word, name: Word) {
    Rooted(dir) && Runs(w, dir, name) ==>
      exists k :: 0 <= k < |Listing(w, dir)| && Counts(Listing(w, dir)[k]) && Listing(w, dir)[k].name == name
  }

  /** xhash and havhash. */
  class PathTable {
    const xhash: array<bv8>
    var havhash: bool

    constructor ()
      ensures !havhash && xhash.Length == HSHSIZ / 8 && fresh(xhash)
    {
      xhash := new bv8[HSHSIZ / 8](_ => 0);
      havhash := false;
    }

    /** The table holds the bits of the path. */
    ghost predicate Built(w: World, path: seq<Word>)
      reads this, xhash
    {
      havhash && xhash.Length == HSHSIZ / 8
      && forall h :: 0 <= h < HSHSIZ ==> (Bit(xhash[..], h) <==> Hashed(w, path, |path|, h))
    }

    /** The lookup passes over a directory without looking. */
    predicate Hidden(dir: Word, name: Word, i: nat)
      requires xhash.Length == HSHSIZ / 8
      reads this, xhash
    {
      SLASH !in name && Rooted(dir) && havhash && !Bit(xhash[..], Hash(NameHash(name), i))
    }

    method Bis(h: nat)
      requires xhash.Length == HSHSIZ / 8 && h < HSHSIZ
      modifies xhash
      ensures forall g :: 0 <= g < HSHSIZ ==> (Bit(xhash[..], g) <==> g == h || Bit(old(xhash[..]), g))
    {
      hide Mask, Bit;
      ghost var was := xhash[..];
      xhash[h / 8] := Mask(h % 8) | xhash[h / 8];
      assert xhash[..] == was[h / 8 := Mask(h % 8) | was[h / 8]];
      forall g | 0 <= g < HSHSIZ ensures Bit(xhash[..], g) <==> g == h || Bit(was, g) {
        BisAt(was, h, g);
      }
    }

    /** One directory of dohash. */
    method EnterAll(es: seq<Entry>, i: nat)
      requires xhash.Length == HSHSIZ / 8
      modifies xhash
      ensures forall g :: 0 <= g < HSHSIZ ==> (Bit(xhash[..], g) <==> Bit(old(xhash[..]), g) || Entered(es, |es|, i, g))
    {
      hide Bit, Entered, Hash, Counts, NameHash;
      var k := 0;
      EnteredNone(es, i);
      while k < |es|
        invariant k <= |es|
        invariant forall g :: 0 <= g < HSHSIZ ==> (Bit(xhash[..], g) <==> Bit(old(xhash[..]), g) || Entered(es, k, i, g))
      {
        forall g ensures Entered(es, k + 1, i, g)
            <==> Entered(es, k, i, g) || (Counts(es[k]) && Hash(NameHash(es[k].name), i) == g) {
          EnteredMore(es, k, i, g);
        }
        if Counts(es[k]) {
          var h := Hashname(es[k].name);
          Bis(Hash(h, i));
        }
        k := k + 1;
      }
    }

    /** dohash */
    method Dohash(w: World, path: Option<seq<Word>>)
      requires xhash.Length == HSHSIZ / 8
      modifies this, xhash
      ensures Built(w, if path.Some? then path.value else [])
    {
      hide Entered, Hash, Listing;
      havhash := true;
      var cnt := 0;
      while cnt < xhash.Length
        invariant cnt <= xhash.Length && havhash && forall k :: 0 <= k < cnt ==> xhash[k] == 0
      {
        xhash[cnt] := 0;
        cnt := cnt + 1;
      }
      ZeroBits(xhash[..]);
      if path.None? {
        return;
      }
      var pv, i := path.value, 0;
      while i < |pv|
        invariant i <= |pv| && havhash
        invariant forall h :: 0 <= h < HSHSIZ ==> (Bit(xhash[..], h) <==> Hashed(w, pv, i, h))
      {
        hide Hashed, Bit;
        forall h ensures Hashed(w, pv, i + 1, h)
            <==> Hashed(w, pv, i, h) || Entered(Listing(w, pv[i]), |Listing(w, pv[i])|, i, h) {
          HashedMore(w, pv, i, h);
        }
        ListingIs(w, pv[i]);
        EnteredNone([], i);
        if Rooted(pv[i]) {
          var dirp := w.listing(pv[i]);
          if dirp.Some? {
            EnterAll(dirp.value, i);
          }
        }
        i := i + 1;
      }
    }

    /** dounhash */
    method Dounhash()
      modifies this`havhash
      ensures !havhash
    {
      havhash := false;
    }

    /** The table was built for the path from listings that are right about the name, if it is used at all. */
    ghost predicate Current(w: World, path: Option<seq<Word>>, name: Word)
      reads this, xhash
    {
      || !havhash || path.None? || path.value == [] || SLASH in name
      || (Built(w, path.value) && forall i :: 0 <= i < |path.value| ==> Listed(w, path.value[i], name))
    }

    /** iscommand: looking without the table gives the same directory if and only if that one is not passed over,
        and it is not if the table is current. */
    method Iscommand(w: World, path: Option<seq<Word>>, name: Word) returns (r: nat)
      requires xhash.Length == HSHSIZ / 8
      ensures var pv := Places(path, name);
              && r <= |pv|
              && (r > 0 ==> Runs(w, pv[r - 1], name) && !Hidden(pv[r - 1], name, r - 1))
              && (forall j :: 0 <= j < (if r == 0 then |pv| else r - 1) ==> Hidden(pv[j], name, j) || !Runs(w, pv[j], name))
              && var plain := Plain(w, pv, name, 0);
              && (r == plain <==> plain == 0 || !Hidden(pv[plain - 1], name, plain - 1))
              && (Current(w, path, name) ==> r == plain)
    {
      hide Current, Bit, Hash;
      var slash := SLASH in name;
      var pv := Places(path, name);
      var hashval := 0;
      if havhash {
        hashval := Hashname(name);
      }
      if Current(w, path, name) {
        NotHidden(w, path, name);
      }
      var i := 0;
      while i < |pv|
        invariant i <= |pv|
        invariant forall j :: 0 <= j < i ==> Hidden(pv[j], name, j) || !Runs(w, pv[j], name)
      {
        if !slash && Rooted(pv[i]) && havhash && !Bit(xhash[..], Hash(hashval, i)) {
          assert Hidden(pv[i], name, i);
        } else if Runs(w, pv[i], name) {
          return i + 1;
        }
        i := i + 1;
      }
      return 0;
    }

    /** A directory that holds the name has its bit set. */
    lemma HeldIsHashed(w: World, path: seq<Word>, name: Word, i: nat)
      requires Built(w, path) && i < |path| && Listed(w, path[i], name) && Rooted(path[i]) && Runs(w, path[i], name)
      ensures Bit(xhash[..], Hash(NameHash(name), i))
    {
      hide Hash, Listing, Bit, NameHash;
      var es := Listing(w, path[i]);
      var k :| 0 <= k < |es| && Counts(es[k]) && es[k].name == name;
      assert Entered(es, |es|, i, Hash(NameHash(name), i));
      assert Hashed(w, path, |path|, Hash(NameHash(name), i));
    }

    lemma NotHidden(w: World, path: Option<seq<Word>>, name: Word)
      requires xhash.Length == HSHSIZ / 8 && Current(w, path, name)
      ensures var pv := Places(path, name);
              forall i :: 0 <= i < |pv| && Runs(w, pv[i], name) ==> !Hidden(pv[i], name, i)
    {
      hide Built, Bit, Hash, Listed, Runs;
      var pv := Places(path, name);
      forall i | 0 <= i < |pv| && Runs(w, pv[i], name) ensures !Hidden(pv[i], name, i) {
        if pv != [[]] && havhash && Rooted(pv[i]) {
          HeldIsHashed(w, path.value, name, i);
        }
      }
    }
  }

  lemma EnteredNone(es: seq<Entry>, i: nat)
    ensures forall h :: !Entered(es, 0, i, h)
  {
  }

  lemma ListingIs(w: World, dir: Word)
    ensures Listing(w, dir) == if Rooted(dir) && w.listing(dir).Some? then w.listing(dir).value else []
  {
  }

  lemma ZeroBits(table: seq<bv8>)
    requires forall k :: 0 <= k < |table| ==> table[k] == 0
    ensures forall h :: 0 <= h < 8 * |table| ==> !Bit(table, h)
  {
    hide Mask;
  }
}
