/**
 * ExcelPicture: a picture on a worksheet drawing. It keeps its image, the
 * hash of the image's encoded bytes, the relationship the drawing's blip
 * embeds, an optional hyperlink and its size in pixels, and it shares the
 * drawing's relationships and dedup dictionary with every other picture of
 * that drawing.
 *
 * The package layer (`AddImage`, which stores the encoded bytes and returns
 * their hash and part uri) is not modelled: its answer reaches the model as a
 * `StoredImage`. The image relationship's target is kept as the image part's
 * uri, so resolving it back (`ResolvePartUri`) gives that uri again.
 */
module Pictures {
  import opened Options
  import opened Skia
  import opened ContentTypes
  import opened Relationships
  import opened Sizing
  import AnchorXml

  /** What the package's AddImage returns for some encoded bytes: their hash and the image part's uri. */
  datatype StoredImage = StoredImage(hash: Hash, uri: Uri)

  /** The click element PicStartXml writes: the hyperlink and the id of its relationship, when both exist. */
  function ClickOf(link: Option<AnchorXml.Hyperlink>, rel: Option<Relationship>): (r: Option<(AnchorXml.Hyperlink, RelId)>)
    ensures r.Some? <==> link.Some? && rel.Some?
    ensures r.Some? ==> r.value.0 == link.value && r.value.1 == rel.value.id
  {
    if link.Some? && rel.Some? then Some((link.value, rel.value.id)) else None
  }

  /**
   * The store after PicStartXml: a hyperlink gets an External hyperlink
   * relationship to its uri; without one nothing is created.
   */
  function LinkStep(st: Store, link: Option<AnchorXml.Hyperlink>): (r: (Store, Option<Relationship>))
    ensures link.None? ==> r == (st, None)
    ensures link.Some? ==> r.1.Some? && (r.0, r.1.value) == Create(st, link.value.uri, External, HyperlinkRel)
  {
    match link
    case None => (st, None)
    case Some(l) =>
      var (st1, rel) := Create(st, l.uri, External, HyperlinkRel);
      (st1, Some(rel))
  }

  /** The hyperlink relationship never touches the dedup dictionary and keeps the store valid. */
  lemma LinkStepKeepsImages(st: Store, link: Option<AnchorXml.Hyperlink>)
    requires StoreValid(st)
    ensures StoreValid(LinkStep(st, link).0)
    ensures LinkStep(st, link).0.hashes == st.hashes
    ensures LinkStep(st, link).1.Some? ==> LinkStep(st, link).1.value.id !in Ids(st.rels)
  {
    if link.Some? {
      CreateFresh(st, link.value.uri, External, HyperlinkRel);
    }
  }

  /**
   * A new picture's store: first the hyperlink relationship, then the image
   * through the dedup rule; the second component is the id the blip embeds.
   */
  function NewPictureStore(st: Store, link: Option<AnchorXml.Hyperlink>, stored: StoredImage): (r: (Store, RelId))
    ensures stored.hash in r.0.hashes && r.0.hashes[stored.hash] == r.1
    ensures stored.hash in st.hashes ==> r.1 == st.hashes[stored.hash]
    ensures r.0.hashes.Keys == st.hashes.Keys + {stored.hash}
    ensures |st.rels| <= |r.0.rels| <= |st.rels| + 2 && r.0.rels[..|st.rels|] == st.rels
  {
    Dedup(LinkStep(st, link).0, stored.hash, stored.uri)
  }

  /**
   * Two pictures of the same content share one image relationship: the second
   * embeds the first one's id and adds no image relationship of its own.
   */
  lemma SameContentSharesRelationship(st: Store, link1: Option<AnchorXml.Hyperlink>, s1: StoredImage,
                                      link2: Option<AnchorXml.Hyperlink>, s2: StoredImage)
    requires StoreValid(st) && s1.hash == s2.hash
    ensures var (st1, id1) := NewPictureStore(st, link1, s1);
            var (st2, id2) := NewPictureStore(st1, link2, s2);
            && id2 == id1
            && st2 == LinkStep(st1, link2).0
  {
  }

  /** Pictures of different contents never share an image relationship. */
  lemma DifferentContentSeparates(st: Store, link1: Option<AnchorXml.Hyperlink>, s1: StoredImage,
                                  link2: Option<AnchorXml.Hyperlink>, s2: StoredImage)
    requires StoreValid(st) && s1.hash != s2.hash
    ensures var (st1, id1) := NewPictureStore(st, link1, s1);
            NewPictureStore(st1, link2, s2).1 != id1
  {
    LinkStepKeepsImages(st, link1);
    var st0 := LinkStep(st, link1).0;
    DedupValid(st0, s1.hash, s1.uri);
    var (st1, id1) := Dedup(st0, s1.hash, s1.uri);
    LinkStepKeepsImages(st1, link2);
    var st1' := LinkStep(st1, link2).0;
    assert id1 == st1'.hashes[s1.hash];
    DedupValid(st1', s2.hash, s2.uri);
  }

  /** A new picture keeps the drawing's store valid. */
  lemma NewPictureStoreValid(st: Store, link: Option<AnchorXml.Hyperlink>, stored: StoredImage)
    requires StoreValid(st)
    ensures StoreValid(NewPictureStore(st, link, stored).0)
  {
    LinkStepKeepsImages(st, link);
    DedupValid(LinkStep(st, link).0, stored.hash, stored.uri);
  }

  /**
   * `ResolvePartUri(rel.SourceUri, rel.TargetUri)` for the relationship with
   * id `id`: the image part it targets.
   */
  function ResolvedUri(rels: seq<Relationship>, id: RelId): (r: Option<Uri>)
    ensures r.Some? <==> Find(rels, id).Some?
  {
    match Find(rels, id)
    case None => None
    case Some(rel) => Some(rel.target)
  }

  /** Every id of the dedup dictionary resolves to a part. */
  lemma StoredIdResolves(st: Store, h: Hash)
    requires StoreValid(st) && h in st.hashes
    ensures ResolvedUri(st.rels, st.hashes[h]).Some?
  {
    FindStored(st, h);
  }

  class Picture {
    const drawings: Drawings
    /** The drawing element's id, written into cNvPr. */
    const id: int
    var hyperlink: Option<AnchorXml.Hyperlink>
    var hypRel: Option<Relationship>
    var image: Option<RawImage>
    var contentType: Option<string>
    var imageHash: Option<Hash>
    var uriPic: Option<Uri>
    var relPic: Option<Relationship>
    var width: int
    var height: int
    /** The blip's `r:embed` value; None while it is still the empty placeholder. */
    var embed: Option<RelId>
    /**
     * The click element of the markup the `xdr:pic` node was initialised with;
     * the markup itself is StartXml().
     */
    var startClick: Option<(AnchorXml.Hyperlink, RelId)>

    /** The markup the `xdr:pic` node was initialised with: PicStartXml's string. */
    function StartXml(): (xml: string)
      reads this
      ensures AnchorXml.ReadPicStart(xml) == Some(AnchorXml.Expected(id, startClick))
      ensures AnchorXml.EmbedPlaceholderAt(AnchorXml.PicMarkup, xml)
    {
      AnchorXml.ReadPicStartXml(id, startClick);
      AnchorXml.EmbedLeftEmpty(id, startClick);
      AnchorXml.PicStartXml(id, startClick)
    }

    /**
     * The blip embeds the relationship the drawing's dedup dictionary holds for
     * this picture's image. (That the drawing's store itself stays valid is
     * proved on the store functions the methods follow: DedupValid,
     * LinkStepKeepsImages, NewPictureStoreValid.)
     */
    ghost predicate Valid()
      reads this, drawings
    {
      && imageHash.Some?
      && imageHash.value in drawings.hashes
      && embed == Some(drawings.hashes[imageHash.value])
    }

    /**
     * The relationship half of PicStartXml: a hyperlink gets an External
     * hyperlink relationship to its uri, kept in hypRel.
     */
    method LinkHyperlink()
      modifies drawings`rels, drawings`nextId, this`hypRel
      ensures (drawings.State(), if hyperlink.Some? then hypRel else None) == LinkStep(old(drawings.State()), hyperlink)
      ensures hyperlink.None? ==> hypRel == old(hypRel)
    {
      if hyperlink.Some? {
        var rel := drawings.CreateRelationship(hyperlink.value.uri, External, HyperlinkRel);
        hypRel := Some(rel);
      }
    }

    /**
     * PicStartXml: the initial markup; a hyperlink first gets its relationship,
     * whose id the click element names.
     */
    method PicStartXml() returns (xml: string)
      modifies drawings`rels, drawings`nextId, this`hypRel
      ensures (drawings.State(), if hyperlink.Some? then hypRel else None) == LinkStep(old(drawings.State()), hyperlink)
      ensures hyperlink.None? ==> hypRel == old(hypRel)
      ensures xml == AnchorXml.PicStartXml(id, ClickOf(hyperlink, hypRel))
    {
      LinkHyperlink();
      xml := AnchorXml.PicStartXml(id, ClickOf(hyperlink, hypRel));
    }

    /**
     * SavePicture: record the hash; a known hash reuses its relationship and
     * points uriPic at the part that relationship targets; an unknown one
     * creates an Internal image relationship to the stored part and remembers it.
     */
    method SavePicture(stored: StoredImage) returns (relId: RelId)
      modifies drawings`hashes, drawings`rels, drawings`nextId, this`imageHash, this`uriPic, this`relPic
      ensures (drawings.State(), relId) == Dedup(old(drawings.State()), stored.hash, stored.uri)
      ensures imageHash == Some(stored.hash)
      ensures stored.hash in old(drawings.hashes) ==>
                uriPic == ResolvedUri(old(drawings.rels), relId) && relPic == old(relPic)
      ensures stored.hash !in old(drawings.hashes) ==>
                && uriPic == Some(stored.uri)
                && relPic == Some(Relationship(relId, stored.uri, Internal, ImageRel))
    {
      imageHash := Some(stored.hash);
      if stored.hash in drawings.hashes {
        relId := drawings.hashes[stored.hash];
        uriPic := ResolvedUri(drawings.rels, relId);
        return;
      }
      uriPic := Some(stored.uri);
      var rel := drawings.CreateRelationship(stored.uri, Internal, ImageRel);
      relPic := Some(rel);
      drawings.hashes := drawings.hashes[stored.hash := rel.id];
      relId := rel.id;
    }

    /**
     * The hit/miss block of the file constructor: the same rule as
     * SavePicture, except that uriPic starts as the fresh `/xl/media/` uri
     * offered to the package and a miss leaves it there, while the new
     * relationship targets the part the package reports.
     */
    method SaveFilePicture(newUri: Uri, stored: StoredImage) returns (relId: RelId)
      modifies drawings`hashes, drawings`rels, drawings`nextId, this`imageHash, this`uriPic, this`relPic
      ensures (drawings.State(), relId) == Dedup(old(drawings.State()), stored.hash, stored.uri)
      ensures imageHash == Some(stored.hash)
      ensures stored.hash in old(drawings.hashes) ==>
                uriPic == ResolvedUri(old(drawings.rels), relId) && relPic == old(relPic)
      ensures stored.hash !in old(drawings.hashes) ==>
                && uriPic == Some(newUri)
                && relPic == Some(Relationship(relId, stored.uri, Internal, ImageRel))
    {
      uriPic := Some(newUri);
      if stored.hash !in drawings.hashes {
        var rel := drawings.CreateRelationship(stored.uri, Internal, ImageRel);
        relPic := Some(rel);
        relId := rel.id;
        drawings.hashes := drawings.hashes[stored.hash := relId];
      } else {
        relId := drawings.hashes[stored.hash];
        uriPic := ResolvedUri(drawings.rels, relId);
      }
      imageHash := Some(stored.hash);
    }

    /**
     * The constructor from an image: initial markup (with its hyperlink
     * relationship), then SavePicture, the embed reference and the image's size.
     */
    constructor FromImage(drawings: Drawings, id: int, image: RawImage, hyperlink: Option<AnchorXml.Hyperlink>,
                          stored: StoredImage)
      modifies drawings
      ensures Valid()
      ensures this.drawings == drawings && this.id == id && this.hyperlink == hyperlink
      ensures this.image == Some(image) && contentType == None
      ensures width == image.width && height == image.height
      ensures (drawings.State(), embed.value) == NewPictureStore(old(drawings.State()), hyperlink, stored)
      ensures hypRel == LinkStep(old(drawings.State()), hyperlink).1
      ensures startClick == ClickOf(hyperlink, hypRel)
      ensures imageHash == Some(stored.hash)
      ensures stored.hash in LinkStep(old(drawings.State()), hyperlink).0.hashes ==>
                && uriPic == ResolvedUri(LinkStep(old(drawings.State()), hyperlink).0.rels, embed.value)
                && relPic == None
      ensures stored.hash !in LinkStep(old(drawings.State()), hyperlink).0.hashes ==>
                && uriPic == Some(stored.uri)
                && relPic == Some(Relationship(embed.value, stored.uri, Internal, ImageRel))
    {
      this.drawings := drawings;
      this.id := id;
      this.hyperlink := hyperlink;
      hypRel := None;
      this.image := Some(image);
      contentType := None;
      imageHash := None;
      uriPic := None;
      relPic := None;
      width := image.width;
      height := image.height;
      embed := None;
      startClick := None;
      new;
      // The relationship half of PicStartXml; the markup is recorded by its
      // click element, and StartXml() is PicStartXml's string.
      ghost var st0 := drawings.State();
      LinkHyperlink();
      startClick := ClickOf(hyperlink, hypRel);
      ghost var st1 := drawings.State();
      assert st1 == LinkStep(st0, hyperlink).0;
      var relId := SavePicture(stored);
      embed := Some(relId);
    }

    /**
     * The constructor from a file: content type from the extension, the decoded
     * image, then the same hit/miss rule as SavePicture, except that on a miss
     * uriPic stays the fresh `/xl/media/` uri offered to the package while the
     * relationship targets the part the package reports.
     */
    constructor FromFile(drawings: Drawings, id: int, hyperlink: Option<AnchorXml.Hyperlink>, extension: string,
                         decoded: RawImage, newUri: Uri, stored: StoredImage)
      modifies drawings
      ensures Valid()
      ensures this.drawings == drawings && this.id == id && this.hyperlink == hyperlink
      ensures image == Some(decoded) && contentType == Some(GetContentType(extension))
      ensures width == decoded.width && height == decoded.height
      ensures (drawings.State(), embed.value) == NewPictureStore(old(drawings.State()), hyperlink, stored)
      ensures hypRel == LinkStep(old(drawings.State()), hyperlink).1
      ensures startClick == ClickOf(hyperlink, hypRel)
      ensures imageHash == Some(stored.hash)
      ensures stored.hash !in old(drawings.hashes) ==>
                && uriPic == Some(newUri)
                && relPic == Some(Relationship(embed.value, stored.uri, Internal, ImageRel))
      ensures stored.hash in old(drawings.hashes) ==>
                && uriPic == ResolvedUri(drawings.rels, embed.value)
                && relPic == None
    {
      this.drawings := drawings;
      this.id := id;
      this.hyperlink := hyperlink;
      hypRel := None;
      // Content type and decoding do not touch the drawing: they come first here.
      contentType := Some(GetContentType(extension));
      image := Some(decoded);
      imageHash := None;
      uriPic := None;
      relPic := None;
      width := decoded.width;
      height := decoded.height;
      embed := None;
      startClick := None;
      new;
      ghost var st0 := drawings.State();
      LinkHyperlink();
      startClick := ClickOf(hyperlink, hypRel);
      ghost var st1 := drawings.State();
      assert st1 == LinkStep(st0, hyperlink).0;
      var relId := SaveFilePicture(newUri, stored);
      assert (drawings.State(), relId) == Dedup(st1, stored.hash, stored.uri);
      embed := Some(relId);
    }

    /**
     * The Image setter: no image leaves everything as it is; otherwise the
     * image is replaced, saved through SavePicture and embedded. The stored
     * size is not touched.
     */
    method SetImage(value: Option<RawImage>, stored: StoredImage)
      modifies this`image, this`imageHash, this`uriPic, this`relPic, this`embed
      modifies drawings`hashes, drawings`rels, drawings`nextId
      ensures value.Some? ==> Valid()
      ensures value.None? ==> unchanged(this) && unchanged(drawings)
      ensures value.Some? ==>
                && image == value
                && imageHash == Some(stored.hash)
                && (drawings.State(), embed.value) == Dedup(old(drawings.State()), stored.hash, stored.uri)
      ensures value.Some? && stored.hash in old(drawings.hashes) ==>
                uriPic == ResolvedUri(old(drawings.rels), embed.value) && relPic == old(relPic)
      ensures value.Some? && stored.hash !in old(drawings.hashes) ==>
                && uriPic == Some(stored.uri)
                && relPic == Some(Relationship(embed.value, stored.uri, Internal, ImageRel))
      ensures width == old(width) && height == old(height)
    {
      if value.Some? {
        image := value;
        var relId := SavePicture(stored);
        embed := Some(relId);
      }
    }

    /** SetSize(percent), with the size left as far as it got when a cast overflows. */
    method SetSize(percent: Int32) returns (ok: bool)
      modifies this`width, this`height
      ensures Resized(ok, width, height) == Resize(image, old(width), old(height), percent)
    {
      if image.None? {
        return true;
      }
      width := image.value.width;
      height := image.value.height;
      var w := Scale(width, percent);
      if !InInt32(w) {
        return false;
      }
      width := w;
      var h := Scale(height, percent);
      if !InInt32(h) {
        return false;
      }
      height := h;
      ok := true;
    }

    /**
     * Dispose: drops the hyperlink and the image; `ok` is false when there was
     * no image, where `_image.Dispose()` throws after the hyperlink is dropped.
     */
    method Dispose() returns (ok: bool)
      modifies this`hyperlink, this`image
      ensures hyperlink == None && image == None
      ensures ok == old(image).Some?
    {
      hyperlink := None;
      ok := image.Some?;
      image := None;
    }
  }

  /**
   * Two pictures of the same image on one drawing: the second shares the
   * first one's image relationship, the first stays valid, and the drawing's
   * store stays valid.
   */
  method AddSameImageTwice(drawings: Drawings, image: RawImage, stored: StoredImage) returns (p1: Picture, p2: Picture)
    modifies drawings
    ensures p1.Valid() && p2.Valid()
    ensures p1.embed == p2.embed
    ensures |drawings.rels| == |old(drawings.rels)| + (if stored.hash in old(drawings.hashes) then 0 else 1)
    ensures old(drawings.Valid()) ==> drawings.Valid()
  {
    ghost var st0 := drawings.State();
    p1 := new Picture.FromImage(drawings, 1, image, None, stored);
    ghost var st1 := drawings.State();
    p2 := new Picture.FromImage(drawings, 2, image, None, stored);
    if StoreValid(st0) {
      NewPictureStoreValid(st0, None, stored);
      NewPictureStoreValid(st1, None, stored);
    }
  }
}
