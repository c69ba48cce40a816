/**
 * Collecting the chunks of a published site for a takedown
 * (apps/registrar/registrar.go, collectChunkHashes) and what revoking that list
 * achieves. Resolving the name, fetching and JSON parsing are inputs.
 */
module Site {
  import opened NodeId
  import opened Options
  import opened Text
  import opened Revoke
  import Gates
  import SignedBytes

  /** What the registrar can see: blobs by key, and the two parsers. */
  datatype View = View(
    get: Id -> Option<Bytes>,
    directory: Bytes -> Option<seq<string>>,
    manifest: Bytes -> Option<seq<string>>)

  predicate Distinct(s: seq<string>) {
    forall i, j :: 0 <= i < j < |s| ==> s[i] != s[j]
  }

  /** The directory at the root, if it can be fetched and parsed, has this entry. */
  predicate HasEntry(v: View, root: Id, e: string) {
    v.get(root).Some? && v.directory(v.get(root).value).Some? && e in v.directory(v.get(root).value).value
  }

  /** The manifest at a key, if it can be fetched and parsed, lists this chunk. */
  predicate HasChunk(v: View, key: Id, s: string) {
    v.get(key).Some? && v.manifest(v.get(key).value).Some? && s in v.manifest(v.get(key).value).value
  }

  /** An entry that is a key contributes it in canonical form, and the chunks of the manifest there. */
  predicate FromEntry(v: View, e: string, s: string) {
    IdFromHex(e).Some? && (s == Hex(IdFromHex(e).value) || HasChunk(v, IdFromHex(e).value, s))
  }

  /** The whole site graph as strings: root, manifests and chunks. */
  ghost predicate InSite(v: View, root: Id, s: string) {
    s == Hex(root) || exists e :: HasEntry(v, root, e) && FromEntry(v, e, s)
  }

  method AddNew(out: seq<string>, seen: set<string>, more: seq<string>) returns (out': seq<string>, seen': set<string>)
    requires Distinct(out) && forall s :: s in out <==> s in seen
    ensures Distinct(out') && forall s :: s in out' <==> s in seen'
    ensures forall s :: s in out' <==> s in out || s in more
    ensures out <= out'
  {
    out', seen' := out, seen;
    for i := 0 to |more|
      invariant Distinct(out') && forall s :: s in out' <==> s in seen'
      invariant forall s :: s in out' <==> s in out || s in more[..i]
      invariant out <= out'
    {
      if more[i] !in seen' {
        seen' := seen' + {more[i]};
        out' := out' + [more[i]];
      }
      assert more[..i + 1] == more[..i] + [more[i]];
    }
  }

  /** Adds one entry: its key, then the chunks of its manifest as far as they can be had. */
  method AddEntry(v: View, out: seq<string>, seen: set<string>, e: string) returns (out': seq<string>, seen': set<string>)
    requires Distinct(out) && forall s :: s in out <==> s in seen
    ensures Distinct(out') && forall s :: s in out' <==> s in seen'
    ensures forall s :: s in out' <==> s in out || FromEntry(v, e, s)
    ensures out <= out'
  {
    out', seen' := out, seen;
    var key := IdFromHex(e);
    if key.None? { return; }
    out', seen' := AddNew(out', seen', [Hex(key.value)]);
    var blob := v.get(key.value);
    if blob.None? { return; }
    var chunks := v.manifest(blob.value);
    if chunks.None? { return; }
    out', seen' := AddNew(out', seen', chunks.value);
  }

  method CollectChunkHashes(v: View, resolved: Option<Id>) returns (out: seq<string>)
    ensures Distinct(out)
    ensures resolved.None? ==> out == []
    ensures resolved.Some? ==> out != [] && out[0] == Hex(resolved.value)
    ensures resolved.Some? ==> forall s :: s in out <==> InSite(v, resolved.value, s)
  {
    if resolved.None? { return []; }
    var root := resolved.value;
    out := [Hex(root)];
    var blob := v.get(root);
    if blob.None? { return; }
    var dir := v.directory(blob.value);
    if dir.None? { return; }
    var seen := {Hex(root)};
    var entries := dir.value;
    for i := 0 to |entries|
      invariant Distinct(out) && out != [] && out[0] == Hex(root)
      invariant forall s :: s in out <==> s in seen
      invariant forall s :: s in out <==> s == Hex(root) || exists k :: 0 <= k < i && FromEntry(v, entries[k], s)
    {
      out, seen := AddEntry(v, out, seen, entries[i]);
    }
    assert forall e :: HasEntry(v, root, e) <==> exists k :: 0 <= k < |entries| && entries[k] == e;
  }

  /** On the blobs and the two parsers alone: every manifest key of the directory is collected, */
  lemma EntryIsCollected(v: View, root: Id, out: seq<string>, blob: Bytes, entries: seq<string>, e: string, key: Id)
    requires forall s :: s in out <==> InSite(v, root, s)
    requires v.get(root) == Some(blob) && v.directory(blob) == Some(entries) && e in entries && IdFromHex(e) == Some(key)
    ensures Hex(key) in out
  {
    assert HasEntry(v, root, e) && FromEntry(v, e, Hex(key));
  }

  /** and every chunk of every manifest that can be fetched; */
  lemma ChunkIsCollected(v: View, root: Id, out: seq<string>, blob: Bytes, entries: seq<string>, e: string, key: Id,
                         mb: Bytes, chunks: seq<string>, s: string)
    requires forall s :: s in out <==> InSite(v, root, s)
    requires v.get(root) == Some(blob) && v.directory(blob) == Some(entries) && e in entries && IdFromHex(e) == Some(key)
    requires v.get(key) == Some(mb) && v.manifest(mb) == Some(chunks) && s in chunks
    ensures s in out
  {
    assert HasEntry(v, root, e) && FromEntry(v, e, s);
  }

  /** and nothing else is, but the root. */
  lemma CollectedArises(v: View, root: Id, out: seq<string>, s: string)
    returns (blob: Bytes, entries: seq<string>, e: string, key: Id, mb: Option<Bytes>, chunks: seq<string>)
    requires forall s :: s in out <==> InSite(v, root, s)
    requires s in out && s != Hex(root)
    ensures v.get(root) == Some(blob) && v.directory(blob) == Some(entries) && e in entries && IdFromHex(e) == Some(key)
    ensures s == Hex(key) || (mb.Some? && v.get(key) == mb && v.manifest(mb.value) == Some(chunks) && s in chunks)
  {
    e :| HasEntry(v, root, e) && FromEntry(v, e, s);
    blob, key := v.get(root).value, IdFromHex(e).value;
    entries, mb, chunks := v.directory(blob).value, v.get(key), [];
    if s != Hex(key) { chunks := v.manifest(mb.value).value; }
  }

  /** A key of the site: the root, a manifest, or a chunk listed in a manifest that can be fetched. */
  ghost predicate SiteKey(v: View, root: Id, k: Id) {
    exists s :: InSite(v, root, s) && IdFromHex(s) == Some(k)
  }

  /** The collected list names the keys of the site and no other key. */
  lemma CollectedNamesSite(v: View, root: Id, out: seq<string>, k: Id)
    requires forall s :: s in out <==> InSite(v, root, s)
    ensures Names(out, k) <==> SiteKey(v, root, k)
  {
    if SiteKey(v, root, k) {
      var s :| InSite(v, root, s) && IdFromHex(s) == Some(k);
      var i :| 0 <= i < |out| && out[i] == s;
    }
  }

  /** No key is listed under two spellings. */
  predicate KeysOnce(out: seq<string>) {
    forall i, j :: 0 <= i < j < |out| && IdFromHex(out[i]).Some? ==> IdFromHex(out[i]) != IdFromHex(out[j])
  }

  /** The site does not spell a key in two cases. */
  ghost predicate OneCase(v: View, root: Id) {
    forall s, t :: InSite(v, root, s) && InSite(v, root, t) && IdFromHex(s).Some? && Lower(s) == Lower(t) ==> s == t
  }

  lemma TwoSpellings(out: seq<string>, s: string, t: string)
    requires s in out && t in out && s != t && IdFromHex(s).Some? && Lower(s) == Lower(t)
    ensures !KeysOnce(out)
  {
    SameKeyIff(s, t);
    var i :| 0 <= i < |out| && out[i] == s;
    var j :| 0 <= j < |out| && out[j] == t;
    assert i < j || j < i;
  }

  lemma OneSpelling(out: seq<string>, i: nat, j: nat)
    requires Distinct(out) && i < j < |out| && IdFromHex(out[i]).Some?
    requires Lower(out[i]) == Lower(out[j]) ==> out[i] == out[j]
    ensures IdFromHex(out[i]) != IdFromHex(out[j])
  {
    SameKeyIff(out[i], out[j]);
  }

  /**
   * The list holds every string once. It holds every key once if and only if the
   * manifests do not spell a key in two cases.
   */
  lemma KeysOnceIff(v: View, root: Id, out: seq<string>)
    requires Distinct(out) && forall s :: s in out <==> InSite(v, root, s)
    ensures KeysOnce(out) <==> OneCase(v, root)
  {
    if OneCase(v, root) {
      forall i, j | 0 <= i < j < |out| && IdFromHex(out[i]).Some? ensures IdFromHex(out[i]) != IdFromHex(out[j]) {
        assert out[i] in out && out[j] in out;
        OneSpelling(out, i, j);
      }
    } else {
      var s, t :| InSite(v, root, s) && InSite(v, root, t) && IdFromHex(s).Some? && Lower(s) == Lower(t) && s != t;
      TwoSpellings(out, s, t);
    }
  }

  /**
   * Revoking a site: the broadcast payload lists the collected strings trimmed, in
   * lower case and sorted. After it is applied, and after any further requests and
   * revokes, no key of the site is stored by the node or handed out by a store,
   * find_value or Get request.
   */
  lemma RevokedSiteStaysGone(v: View, root: Id, out: seq<string>, c: Crypto, hash: Bytes -> Id, n: Node,
                             ops: seq<Gates.Op>, op: Gates.Op, k: Id)
    requires forall s :: s in out <==> InSite(v, root, s)
    requires SiteKey(v, root, k) && Gates.About(op, k) && !op.GetAll?
    ensures var r := Gates.After(c, hash, ApplyRevoke(n, SortStrings(Map(Norm, out))), ops);
            Gates.Gone(r, k) && !Gates.Serves(Gates.Perform(c, hash, r, op).1)
  {
    CollectedNamesSite(v, root, out, k);
    SignedNamesMore(out, k);
    Gates.RevokedStaysGone(c, hash, n, SortStrings(Map(Norm, out)), ops, op, k);
  }

  /** What is signed names every key the list names; and exactly those, if none of its strings is padded. */
  lemma SignedNamesMore(out: seq<string>, k: Id)
    ensures Names(out, k) ==> Names(SortStrings(Map(Norm, out)), k)
    ensures SignedBytes.LosesNone(out) ==> (Names(out, k) <==> Names(SortStrings(Map(Norm, out)), k))
  {
    var lines := SignedBytes.Lines(out);
    if Names(out, k) { SignedBytes.NamedIsPromised(out, k); }
    SignedBytes.PromisedIffLine(out, k);
    SignedBytes.LosesNoneIff(out);
    if x :| x in lines && IdFromHex(x) == Some(k) {
      var i :| 0 <= i < |lines| && lines[i] == x;
    }
    if Names(lines, k) {
      var i :| 0 <= i < |lines| && IdFromHex(lines[i]) == Some(k);
      assert lines[i] in lines;
    }
  }
}
