/**
 * The download archive as an ordered list of named entries: one per file record of the bundle,
 * in repository order, for those files whose blob still exists.
 */
module Archive {
  import opened Common
  import opened Entities

  /** The entries the archive writer receives for `fs`; a record whose blob is gone is skipped. */
  function ArchiveOf(fs: seq<FileRecord>, store: map<BlobPath, Bytes>): (r: seq<Entry>)
    ensures |r| <= |fs|
    ensures forall e :: e in r ==>
      exists f :: f in fs && f.filePath in store && e == Entry(f.fileName, store[f.filePath])
    ensures forall f :: f in fs && f.filePath in store ==> Entry(f.fileName, store[f.filePath]) in r
  {
    if fs == [] then []
    else
      var init, f := fs[..|fs| - 1], fs[|fs| - 1];
      assert fs == init + [f];
      ArchiveOf(init, store)
      + (if f.filePath in store then [Entry(f.fileName, store[f.filePath])] else [])
  }

  /** With every blob stored, two records of the same name make the archive writer refuse the download. */
  lemma RepeatedNameRefused(fs: seq<FileRecord>, store: map<BlobPath, Bytes>, a: nat, b: nat)
    requires forall i :: 0 <= i < |fs| ==> fs[i].filePath in store
    requires a < b < |fs| && fs[a].fileName == fs[b].fileName
    ensures !DistinctNames(ArchiveOf(fs, store))
  {
    ArchiveOfStored(fs, store);
    var es := ArchiveOf(fs, store);
    assert es[a].name == es[b].name;
  }

  /** One more record adds its entry exactly when its blob exists. */
  lemma ArchiveStep(fs: seq<FileRecord>, i: nat, store: map<BlobPath, Bytes>)
    requires i < |fs|
    ensures ArchiveOf(fs[..i + 1], store)
      == ArchiveOf(fs[..i], store) + (if fs[i].filePath in store then [Entry(fs[i].fileName, store[fs[i].filePath])] else [])
  {
    assert fs[..i + 1][..i] == fs[..i];
  }

  /** The records whose blob exists, in order: the ones the archive loop writes an entry for. */
  function StoredFiles(fs: seq<FileRecord>, store: map<BlobPath, Bytes>): (r: seq<FileRecord>)
    ensures |r| <= |fs|
    ensures forall f :: f in r <==> f in fs && f.filePath in store
    ensures forall i :: 0 <= i < |r| ==> r[i].filePath in store
  {
    if fs == [] then []
    else
      var init, f := fs[..|fs| - 1], fs[|fs| - 1];
      assert fs == init + [f];
      StoredFiles(init, store) + (if f.filePath in store then [f] else [])
  }

  /** Skipping the records whose blob is gone: the archive is that of the stored records alone. */
  lemma {:induction false} ArchiveSkipsMissing(fs: seq<FileRecord>, store: map<BlobPath, Bytes>)
    ensures ArchiveOf(fs, store) == ArchiveOf(StoredFiles(fs, store), store)
  {
    if fs != [] {
      var init, f := fs[..|fs| - 1], fs[|fs| - 1];
      ArchiveSkipsMissing(init, store);
      var tail := if f.filePath in store then [f] else [];
      ArchiveOfAppend(StoredFiles(init, store), tail, store);
      assert ArchiveOf(tail, store) == if f.filePath in store then [Entry(f.fileName, store[f.filePath])] else [] by {
        if f.filePath in store {
          assert tail[..0] == [];
        }
      }
    }
  }

  /**
   * The archive of a bundle, whether or not some blobs are gone: entry `i` is the `i`-th record whose
   * blob exists, with that record's name and exactly the stored bytes.
   */
  lemma ArchiveEntries(fs: seq<FileRecord>, store: map<BlobPath, Bytes>)
    ensures var sf := StoredFiles(fs, store);
      && |ArchiveOf(fs, store)| == |sf|
      && forall i :: 0 <= i < |sf| ==> ArchiveOf(fs, store)[i] == Entry(sf[i].fileName, store[sf[i].filePath])
  {
    ArchiveSkipsMissing(fs, store);
    ArchiveOfStored(StoredFiles(fs, store), store);
  }

  /** The archive writer accepts each entry name once. */
  predicate DistinctNames(es: seq<Entry>) {
    forall i, j :: 0 <= i < j < |es| ==> es[i].name != es[j].name
  }

  function Names(es: seq<Entry>): (r: set<string>) {
    set i | 0 <= i < |es| :: es[i].name
  }

  /** The archive of two runs of records is the archive of the first followed by that of the second. */
  lemma {:induction false} ArchiveOfAppend(s: seq<FileRecord>, t: seq<FileRecord>, store: map<BlobPath, Bytes>)
    ensures ArchiveOf(s + t, store) == ArchiveOf(s, store) + ArchiveOf(t, store)
    decreases |t|
  {
    if t != [] {
      var t' := t[..|t| - 1];
      assert (s + t)[..|s + t| - 1] == s + t';
      ArchiveOfAppend(s, t', store);
    } else {
      assert s + t == s;
    }
  }

  /** A repeated name among the first records makes the whole archive's names repeat. */
  lemma RepeatInPrefix(fs: seq<FileRecord>, i: nat, store: map<BlobPath, Bytes>)
    requires i <= |fs|
    requires !DistinctNames(ArchiveOf(fs[..i], store))
    ensures !DistinctNames(ArchiveOf(fs, store))
  {
    ArchiveOfAppend(fs[..i], fs[i..], store);
    assert fs[..i] + fs[i..] == fs;
    var pre, whole := ArchiveOf(fs[..i], store), ArchiveOf(fs, store);
    var a, b :| 0 <= a < b < |pre| && pre[a].name == pre[b].name;
    assert whole[a] == pre[a] && whole[b] == pre[b];
  }

  /** Adding a fresh name to a list of distinct names keeps them distinct, and a known one repeats. */
  lemma {:induction false} ExtendNames(es: seq<Entry>, e: Entry)
    requires DistinctNames(es)
    ensures Names(es + [e]) == Names(es) + {e.name}
    ensures DistinctNames(es + [e]) <==> e.name !in Names(es)
  {
    var es' := es + [e];
    assert es'[|es|] == e;
    forall x | x in Names(es') ensures x in Names(es) + {e.name} {
      var i :| 0 <= i < |es'| && es'[i].name == x;
      if i < |es| { assert es[i].name == x; }
    }
    forall x | x in Names(es) ensures x in Names(es') {
      var i :| 0 <= i < |es| && es[i].name == x;
      assert es'[i].name == x;
    }
    if e.name in Names(es) {
      var i :| 0 <= i < |es| && es[i].name == e.name;
      assert es'[i].name == es'[|es|].name;
    }
  }

  /**
   * Files whose blobs are all stored come back as one
   * entry each, in order, holding exactly the stored bytes.
   */
  lemma {:induction false} ArchiveOfStored(fs: seq<FileRecord>, store: map<BlobPath, Bytes>)
    requires forall i :: 0 <= i < |fs| ==> fs[i].filePath in store
    ensures |ArchiveOf(fs, store)| == |fs|
    ensures forall i :: 0 <= i < |fs| ==>
      ArchiveOf(fs, store)[i] == Entry(fs[i].fileName, store[fs[i].filePath])
  {
    if fs != [] {
      var init, f := fs[..|fs| - 1], fs[|fs| - 1];
      ArchiveOfStored(init, store);
      var whole := ArchiveOf(fs, store);
      assert whole == ArchiveOf(init, store) + [Entry(f.fileName, store[f.filePath])];
      forall i | 0 <= i < |fs| ensures whole[i] == Entry(fs[i].fileName, store[fs[i].filePath]) {
        if i < |init| {
          assert fs[i] == init[i];
        }
      }
    }
  }
}
