/** The ingestion script's own logic between splitting the PDF and storing
    the chunks: the guard against an empty split, the cleaning of each
    chunk's metadata, and the sequential chunk ids. */
module Ingest {
  import opened Optional
  import opened Text

  /** A metadata value as the splitter produces it. */
  datatype MetaValue = Str(s: string) | Int(i: int) | Bool(b: bool) | NoneVal

  /** The values the cleaning removes: `v in ("", None)`. */
  predicate IsBlank(v: MetaValue)
    ensures IsBlank(v) <==> v.NoneVal? || (v.Str? && |v.s| == 0)
  {
    v == Str("") || v == NoneVal
  }

  /** A document chunk: its text, its metadata and its optional id. */
  datatype Document = Document(pageContent: string, metadata: map<string, MetaValue>, id: Option<string>)

  /** `{k: v for k, v in meta.items() if v not in ("", None)}`. */
  function CleanMetadata(meta: map<string, MetaValue>): (clean: map<string, MetaValue>)
    ensures forall k :: k in clean ==> !IsBlank(clean[k])
    ensures forall k :: k in clean ==> k in meta && clean[k] == meta[k]
    ensures forall k :: k in meta && !IsBlank(meta[k]) ==> k in clean
  {
    map k | k in meta && !IsBlank(meta[k]) :: meta[k]
  }

  /** Cleaning a cleaned map changes nothing. */
  lemma CleanMetadataIdempotent(meta: map<string, MetaValue>)
    ensures CleanMetadata(CleanMetadata(meta)) == CleanMetadata(meta)
  {
  }

  /** The loop over the splits: each chunk re-created with the same text and
      its cleaned metadata; the new document carries no id of its own. */
  method EnrichSplits(splits: seq<Document>) returns (enriched: seq<Document>)
    ensures |enriched| == |splits|
    ensures forall i :: 0 <= i < |splits| ==>
              && enriched[i].pageContent == splits[i].pageContent
              && enriched[i].metadata == CleanMetadata(splits[i].metadata)
              && enriched[i].id == None
  {
    enriched := [];
    for i := 0 to |splits|
      invariant |enriched| == i
      invariant forall j :: 0 <= j < i ==>
                  && enriched[j].pageContent == splits[j].pageContent
                  && enriched[j].metadata == CleanMetadata(splits[j].metadata)
                  && enriched[j].id == None
    {
      var d := splits[i];
      var meta := CleanMetadata(d.metadata);
      var newDoc := Document(d.pageContent, meta, None);
      enriched := enriched + [newDoc];
    }
  }

  const IdPrefix: string := "doc-"

  /** `[f"doc-{i}" for i in range(n)]`. */
  function DocIds(n: nat): (ids: seq<string>)
    ensures |ids| == n
    ensures forall i :: 0 <= i < n ==> ids[i] == IdPrefix + NatToDecimal(i)
  {
    seq(n, i requires 0 <= i < n => IdPrefix + NatToDecimal(i))
  }

  /** The position an id of the form "doc-<decimal>" stands for, where the
      decimal has no leading zero. */
  function ParseDocId(id: string): Option<nat>
  {
    if |id| > |IdPrefix| && id[..|IdPrefix|] == IdPrefix && IsCanonicalDecimal(id[|IdPrefix|..])
    then Some(DecimalToNat(id[|IdPrefix|..]))
    else None
  }

  /** Every generated id reads back as its own position. */
  lemma DocIdRoundTrip(n: nat, i: nat)
    requires i < n
    ensures ParseDocId(DocIds(n)[i]) == Some(i)
  {
    var id := DocIds(n)[i];
    assert id[..|IdPrefix|] == IdPrefix;
    assert id[|IdPrefix|..] == NatToDecimal(i);
    DecimalRoundTrip(i);
  }

  /** An id with a leading zero stands for no position. */
  lemma LeadingZeroRejected(d: string)
    requires |d| >= 2 && d[0] == '0'
    ensures ParseDocId(IdPrefix + d) == None
  {
    assert (IdPrefix + d)[|IdPrefix|..] == d;
  }

  /** The ids of one ingestion are pairwise distinct. */
  lemma DocIdsDistinct(n: nat)
    ensures forall i, j :: 0 <= i < n && 0 <= j < n && i != j ==> DocIds(n)[i] != DocIds(n)[j]
  {
    forall i, j | 0 <= i < n && 0 <= j < n && i != j
      ensures DocIds(n)[i] != DocIds(n)[j]
    {
      DocIdRoundTrip(n, i);
      DocIdRoundTrip(n, j);
    }
  }

  /** How one run of the script ends: an exit before anything is stored, or
      the documents and ids handed to the vector store. */
  datatype IngestOutcome = Exited(code: int) | Stored(documents: seq<Document>, ids: seq<string>)

  /** ingest_pdf from the split chunks on. */
  method IngestPdf(splits: seq<Document>) returns (r: IngestOutcome)
    ensures r.Exited? <==> |splits| == 0
    ensures r.Exited? ==> r.code == 0
    ensures r.Stored? ==> |r.documents| == |splits| && r.ids == DocIds(|splits|)
    ensures r.Stored? ==> forall i :: 0 <= i < |splits| ==>
              && r.documents[i].pageContent == splits[i].pageContent
              && r.documents[i].metadata == CleanMetadata(splits[i].metadata)
              && r.documents[i].id == None
    ensures r.Stored? ==> forall i :: 0 <= i < |splits| ==> ParseDocId(r.ids[i]) == Some(i)
  {
    if |splits| == 0 {
      return Exited(0);
    }
    var enriched := EnrichSplits(splits);
    var ids := DocIds(|enriched|);
    forall i | 0 <= i < |splits|
      ensures ParseDocId(ids[i]) == Some(i)
    {
      DocIdRoundTrip(|splits|, i);
    }
    r := Stored(enriched, ids);
  }
}
