/**
 * The peer directory: which display name each identity (public key) last
 * introduced itself with, and a reverse index from name to the identity that
 * last used it. Entries are only ever added or overwritten, never removed.
 */
module Context {
  import opened Wrappers
  import opened Primitives

  /** The two tables of a directory, as values. */
  datatype Directory = Directory(peers: map<PublicKey, string>, names: map<string, PublicKey>)
  {
    /** Every stored name is in the reverse index, and every indexed identity is known. */
    ghost predicate Valid() {
      && (forall k | k in peers :: peers[k] in names)
      && (forall n | n in names :: names[n] in peers)
    }

    function FindById(k: PublicKey): Option<string> {
      if k in peers then Some(peers[k]) else None
    }

    function FindByName(n: string): Option<PublicKey> {
      if n in names then Some(names[n]) else None
    }

    /** Binds the identity to the name and the name to the identity, overwriting both. */
    function AddPeer(k: PublicKey, n: string): Directory {
      Directory(peers[k := n], names[n := k])
    }

    /** Everything this directory binds, `later` binds too (possibly to something else). */
    ghost predicate RemovedNothingFrom(later: Directory) {
      peers.Keys <= later.peers.Keys && names.Keys <= later.names.Keys
    }
  }

  const EmptyDirectory: Directory := Directory(map[], map[])

  /** A new directory knows no identity and no name. */
  lemma EmptyFindsNothing(k: PublicKey, n: string)
    ensures EmptyDirectory.FindById(k) == None && EmptyDirectory.FindByName(n) == None
    ensures EmptyDirectory.Valid()
  {
  }

  /**
   * After `add_peer` the identity finds the name and the name finds the
   * identity; every other identity and every other name keeps its binding.
   */
  lemma AddPeerFinds(d: Directory, k: PublicKey, n: string)
    ensures d.AddPeer(k, n).FindById(k) == Some(n) && d.AddPeer(k, n).FindByName(n) == Some(k)
    ensures forall k' | k' != k :: d.AddPeer(k, n).FindById(k') == d.FindById(k')
    ensures forall n' | n' != n :: d.AddPeer(k, n).FindByName(n') == d.FindByName(n')
  {
  }

  /** `add_peer` keeps the invariant and removes nothing. */
  lemma AddPeerKeepsValid(d: Directory, k: PublicKey, n: string)
    requires d.Valid()
    ensures d.AddPeer(k, n).Valid()
    ensures d.RemovedNothingFrom(d.AddPeer(k, n))
  {
  }

  /** Adding the same binding twice leaves the state of adding it once. */
  lemma AddPeerIdempotent(d: Directory, k: PublicKey, n: string)
    ensures d.AddPeer(k, n).AddPeer(k, n) == d.AddPeer(k, n)
  {
  }

  /** Entries only accumulate: removing nothing is transitive. */
  lemma RemovedNothingTransitive(a: Directory, b: Directory, c: Directory)
    requires a.RemovedNothingFrom(b) && b.RemovedNothingFrom(c)
    ensures a.RemovedNothingFrom(c)
  {
  }

  /** A rename leaves the old name pointing at the identity: the reverse index is never cleaned up. */
  lemma RenameKeepsStaleName(d: Directory, k: PublicKey, oldName: string, newName: string)
    requires oldName != newName
    ensures var after := d.AddPeer(k, oldName).AddPeer(k, newName);
            after.FindById(k) == Some(newName)
            && after.FindByName(newName) == Some(k)
            && after.FindByName(oldName) == Some(k)
  {
  }

  /**
   * Two identities with one name: the reverse index keeps the later one, the
   * earlier identity keeps its name, so the index no longer leads back to it.
   */
  lemma NameCollisionLastWriteWins(d: Directory, k1: PublicKey, k2: PublicKey, n: string)
    requires k1 != k2
    ensures var after := d.AddPeer(k1, n).AddPeer(k2, n);
            after.FindByName(n) == Some(k2)
            && after.FindById(k1) == Some(n)
            && after.FindById(k2) == Some(n)
  {
  }

  /** `PeersDirectoryInner`: the two hash maps, updated in place. */
  class PeersDirectoryInner {
    var peers: map<PublicKey, string>
    var names: map<string, PublicKey>

    function State(): Directory
      reads this
    {
      Directory(peers, names)
    }

    constructor ()
      ensures State() == EmptyDirectory
    {
      peers := map[];
      names := map[];
    }

    method AddPeer(k: PublicKey, name: string)
      modifies this
      ensures State() == old(State()).AddPeer(k, name)
      ensures old(State()).Valid() ==> State().Valid()
      ensures old(State()).RemovedNothingFrom(State())
    {
      peers := peers[k := name];
      names := names[name := k];
    }

    method FindById(k: PublicKey) returns (r: Option<string>)
      ensures r.Some? <==> k in peers
      ensures r.Some? ==> r.value == peers[k]
    {
      if k in peers {
        r := Some(peers[k]);
      } else {
        r := None;
      }
    }

    method FindByName(n: string) returns (r: Option<PublicKey>)
      ensures r.Some? <==> n in names
      ensures r.Some? ==> r.value == names[n]
    {
      if n in names {
        r := Some(names[n]);
      } else {
        r := None;
      }
    }
  }

  /** `PeersDirectory`: the shared handle that every operation delegates through. */
  class PeersDirectory {
    const inner: PeersDirectoryInner

    function State(): Directory
      reads inner
    {
      inner.State()
    }

    constructor ()
      ensures State() == EmptyDirectory && fresh(inner)
    {
      inner := new PeersDirectoryInner();
    }

    method AddPeer(k: PublicKey, name: string)
      modifies inner
      ensures State() == old(State()).AddPeer(k, name)
    {
      inner.AddPeer(k, name);
    }

    method FindById(k: PublicKey) returns (r: Option<string>)
      ensures r == State().FindById(k)
    {
      r := inner.FindById(k);
    }

    method FindByName(n: string) returns (r: Option<PublicKey>)
      ensures r == State().FindByName(n)
    {
      r := inner.FindByName(n);
    }
  }
}
