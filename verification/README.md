# ExcelPicture, modelled in Dafny

A model of EPPlus's `ExcelPicture`, the picture drawing of a worksheet, and
of `ImageCompat.GetImageAsByteArray`. Modelled:

- the two lookup tables: file extension to content type, and content type to
  encoder format;
- the markup a new picture's `xdr:pic` node starts with (`PicStartXml`),
  including the hyperlink relationship it creates;
- the per-drawing dedup of images. An image whose hash is already in the
  drawing's `_hashes` dictionary reuses that relationship. A new hash gets a
  fresh Internal image relationship. This rule is used by `SavePicture` and by
  the block of the file constructor that does the same;
- the two constructors that create a picture, the `Image` setter, `SetSize`
  and `Dispose`;
- the colour-type switch of `GetImageAsByteArray`.

Modules:

| file | module | what it holds |
|---|---|---|
| `options.dfy` | `Options` | `Option` |
| `skia.dfy` | `Skia` | the codec's boundary types: encoder formats, colour types, a decoded image's size |
| `content_types.dfy` | `ContentTypes` | `GetContentType`, `GetImageFormat`, invariant-culture lower-casing |
| `image_compat.dfy` | `ImageCompat` | `GetImageAsByteArray` as the encode request it makes |
| `relationships.dfy` | `Relationships` | the drawing's relationships and `_hashes` as a pure `Store` with the dedup rule, plus the `Drawings` class that holds them |
| `anchor_xml.dfy` | `AnchorXml` | the `PicStartXml` fragment, a reader for it, and the round trip |
| `sizing.dfy` | `Sizing` | `SetSize`'s decimal arithmetic and its truncating, overflow-checked `int` cast |
| `pictures.dfy` | `Pictures` | the `Picture` class |

Shape of the model:

- `Picture` and `Drawings` are classes. The source updates their fields in place, and pictures of one drawing share the `Drawings` object.
- Each method's `ensures` ties the new state to a pure function of the old state: `Create`, `Dedup`, `LinkStep`, `NewPictureStore` or `Resize`.
- The properties the source relies on are lemmas about those functions:
  - the store stays valid;
  - the same content shares one relationship;
  - different contents never share one.

Behaviours of the code worth knowing, which the model keeps:

- `SetSize` truncates toward zero. It does not round.
- The `Image` setter does not update the stored width and height.
- `Dispose` clears the hyperlink before it disposes the image. So on a picture without an image, it throws with the hyperlink already gone.
- An overflowing `SetSize` leaves the side it had already stored. It does not roll back.

## Model

| member | source | states |
|---|---|---|
| ContentTypes.LowerChar | EPPlus/Drawing/ExcelPicture.cs:166 | upper-case ASCII letters map to the lower-case letter 32 code points up; every other character is kept |
| ContentTypes.ToLower | EPPlus/Drawing/ExcelPicture.cs:166 | same length, each character lower-cased in place |
| ContentTypes.ToLowerFixesLower | EPPlus/Drawing/ExcelPicture.cs:166 | lower-casing leaves a string unchanged exactly when it has no upper-case letter |
| ContentTypes.ToLowerIdempotent | EPPlus/Drawing/ExcelPicture.cs:166 | the result is lower case, and lower-casing it again changes nothing |
| ContentTypes.ToLowerEqualIffSameIgnoringCase | EPPlus/Drawing/ExcelPicture.cs:166 | two strings lower-case to the same string exactly when they differ only in letter case |
| ContentTypes.GetContentType | EPPlus/Drawing/ExcelPicture.cs:164-196 | every extension gets a content type, and it is an `image/` type |
| ContentTypes.ContentTypeTable | EPPlus/Drawing/ExcelPicture.cs:164-196 | a listed extension in any case gets its entry of the 13-entry table; any other gets `image/jpeg`; the result is one of the 11 known types |
| ContentTypes.ContentTypeOfLowered | EPPlus/Drawing/ExcelPicture.cs:166 | an extension and its lower-cased form give the same content type |
| ContentTypes.ContentTypeIgnoresCase | EPPlus/Drawing/ExcelPicture.cs:164-196 | extensions equal up to letter case give the same content type |
| ContentTypes.ContentTypeAliases | EPPlus/Drawing/ExcelPicture.cs:170-172 | `.jpeg` gives `image/jpeg` and `.tiff` gives `image/x-tiff`, in any case, like their short aliases |
| ContentTypes.KnownContentTypesAreLower | EPPlus/Drawing/ExcelPicture.cs:168-193 | every content type the table returns is already lower case |
| ContentTypes.GetImageFormat | EPPlus/Drawing/ExcelPicture.cs:197-215 | the format is always one of Bmp, Jpeg, Gif, Png |
| ContentTypes.ImageFormatTable | EPPlus/Drawing/ExcelPicture.cs:197-215 | the four raster types in any case get their own format; every other content type, TIFF and metafiles included, gets Jpeg |
| ContentTypes.FormatOfExtension | EPPlus/Drawing/ExcelPicture.cs:164-215 | composing the two tables: .bmp/.gif/.png/.jpg/.jpeg keep their own format; every other extension ends at Jpeg |
| ImageCompat.FormatForColorType | EPPlus/Compatibility/ImageCompat.cs:17-28 | Png exactly for Bgra8888, Bmp exactly for Alpha8, Jpeg exactly for every other colour type |
| ImageCompat.GetImageAsByteArray | EPPlus/Compatibility/ImageCompat.cs:9-35 | the encoder is asked for the colour type's format at quality 100 |
| ImageCompat.RequestDependsOnlyOnColorType | EPPlus/Compatibility/ImageCompat.cs:9-35 | two bitmaps get the same encode request exactly when their colour types map to the same format |
| Relationships.Create | EPPlus/Drawing/ExcelPicture.cs:241 | the new relationship has the next id and the given target, mode and kind; it is appended and nothing else changes |
| Relationships.CreateFresh | EPPlus/Drawing/ExcelPicture.cs:241 | on a valid store the new id belongs to no existing relationship, and the store stays valid |
| Relationships.Find | EPPlus/Drawing/ExcelPicture.cs:229-230 | a found relationship is in the list and has the id; not found means no relationship has the id |
| Relationships.FindAt | EPPlus/Drawing/ExcelPicture.cs:229-230 | with distinct ids, looking up a relationship's id returns that relationship |
| Relationships.FindStored | EPPlus/Drawing/ExcelPicture.cs:227-231 | on a valid store every id in `_hashes` resolves to an Internal image relationship |
| Relationships.Dedup | EPPlus/Drawing/ExcelPicture.cs:227-245 | afterwards `_hashes` maps the hash to the returned id; a known hash returns its id and changes nothing; an unknown hash appends exactly one Internal image relationship with that id and records it |
| Relationships.DedupValid | EPPlus/Drawing/ExcelPicture.cs:227-245 | the dedup rule keeps the store valid; on a miss the id is new to both the relationships and `_hashes` |
| Relationships.DedupKeepsEntries | EPPlus/Drawing/ExcelPicture.cs:243 | no existing `_hashes` entry is changed or dropped |
| Relationships.DedupIdempotent | EPPlus/Drawing/ExcelPicture.cs:227-231 | saving the same content a second time returns the first id and leaves the store as it was, whatever uri is offered |
| Relationships.DedupSeparatesContents | EPPlus/Drawing/ExcelPicture.cs:227-245 | on a valid store two different hashes saved one after the other get different ids |
| Relationships.Drawings.CreateRelationship | EPPlus/Drawing/ExcelPicture.cs:143 | the drawing's new state and the returned relationship are `Create` of the old state |
| Relationships.NextFreeId | EPPlus/Drawing/ExcelPicture.cs:143 | the counter of a loaded drawing starts above every existing id |
| AnchorXml.IntText | EPPlus/Drawing/ExcelPicture.cs:263 | the id's decimal text is non-empty and contains no double quote |
| AnchorXml.RelIdText | EPPlus/Drawing/ExcelPicture.cs:274-279 | a relationship id's text contains no double quote |
| AnchorXml.SplitAtQuote | EPPlus/Drawing/ExcelPicture.cs:263-279 | splits at the first double quote, with a quote-free head; None only when there is no quote |
| AnchorXml.SplitAtFirstQuote | EPPlus/Drawing/ExcelPicture.cs:263-279 | a quote-free value followed by its closing quote is split off exactly |
| AnchorXml.AfterRelId | EPPlus/Drawing/ExcelPicture.cs:271-285 | the click element's rest after the relationship id: ` tooltip="…"/>` for an ExcelHyperLink, ` />` for a plain Uri; either way it ends with the fixed suffix |
| AnchorXml.AfterId | EPPlus/Drawing/ExcelPicture.cs:261-285 | after the id: the self-closing cNvPr without a hyperlink, else the open cNvPr and the click element naming the relationship id; it ends with the fixed suffix |
| AnchorXml.Assemble | EPPlus/Drawing/ExcelPicture.cs:257-287 | the fragment begins with `<xdr:nvPicPr><xdr:cNvPr id="` and ends with the fixed blip, fill and geometry text |
| AnchorXml.PicStartXml | EPPlus/Drawing/ExcelPicture.cs:257-287 | the fragment built from the source's own literal pieces; what it carries is stated by ReadPicStartXml, PicStartXmlFrame and EmbedLeftEmpty |
| AnchorXml.PicMarkupDistinguishable | EPPlus/Drawing/ExcelPicture.cs:261-280 | the self-closing and the open cNvPr endings differ, and so do the click endings with and without a tooltip |
| AnchorXml.ReadAfterId | EPPlus/Drawing/ExcelPicture.cs:268-282 | after the id, a fragment with a hyperlink is read as an open cNvPr with a click element naming the relationship id |
| AnchorXml.ReadToolTip | EPPlus/Drawing/ExcelPicture.cs:271-275 | an ExcelHyperLink's click element is read back with its tooltip, whatever its text |
| AnchorXml.ReadId | EPPlus/Drawing/ExcelPicture.cs:257-282 | the drawing id is read back from any fragment, whatever follows it |
| AnchorXml.ReadAssembledNoLink | EPPlus/Drawing/ExcelPicture.cs:261-264 | without a hyperlink the fragment carries the id and no click element |
| AnchorXml.ReadAssembledPlain | EPPlus/Drawing/ExcelPicture.cs:276-280 | a plain Uri gives a click element with the relationship id and no tooltip |
| AnchorXml.ReadAssembledToolTip | EPPlus/Drawing/ExcelPicture.cs:271-275 | an ExcelHyperLink gives a click element with the relationship id and the tooltip |
| AnchorXml.ReadAssembled | EPPlus/Drawing/ExcelPicture.cs:255-288 | round trip: reading an assembled fragment gives back exactly the id, the relationship id and the tooltip it was built from |
| AnchorXml.ReadPicStartXml | EPPlus/Drawing/ExcelPicture.cs:255-288 | PicStartXml's fragment carries exactly the drawing id; a click element exactly when there is a hyperlink; a tooltip exactly for an ExcelHyperLink |
| AnchorXml.AssembledFrame | EPPlus/Drawing/ExcelPicture.cs:259-285 | every fragment starts with `<xdr:nvPicPr>` and ends with the fixed blip, fill and geometry text |
| AnchorXml.PicStartXmlFrame | EPPlus/Drawing/ExcelPicture.cs:259-285 | PicStartXml's fragment starts with `<xdr:nvPicPr>` and ends with the fixed suffix |
| AnchorXml.AssembledEmbed | EPPlus/Drawing/ExcelPicture.cs:285 | the empty embed reference sits right after the blip's opening text |
| AnchorXml.EmbedLeftEmpty | EPPlus/Drawing/ExcelPicture.cs:285 | every PicStartXml fragment holds `r:embed=""`, for the caller to fill in |
| Sizing.TruncDiv100 | EPPlus/Drawing/ExcelPicture.cs:361-362 | division by 100 truncated toward zero: the quotient's magnitude is below the exact quotient's by less than 1, and its sign is the dividend's |
| Sizing.TruncDiv100Monotone | EPPlus/Drawing/ExcelPicture.cs:361-362 | truncating division keeps order |
| Sizing.Scale | EPPlus/Drawing/ExcelPicture.cs:361-362 | for a non-negative side and percentage the new side is the largest whole number not above side * percent / 100; a negative percentage never gives a positive side |
| Sizing.ScaleIdentity | EPPlus/Drawing/ExcelPicture.cs:361-362 | 100 percent keeps the side |
| Sizing.ScaleWithinOriginal | EPPlus/Drawing/ExcelPicture.cs:361-362 | between 0 and 100 percent the side neither grows nor goes negative |
| Sizing.ScaleMonotone | EPPlus/Drawing/ExcelPicture.cs:361-362 | a larger percentage never gives a shorter side |
| Sizing.Resize | EPPlus/Drawing/ExcelPicture.cs:350-367 | without an image the size is kept; with one, success exactly when both scaled sides fit in an `int`, and then they are the new size; on overflow, the sides already stored |
| Sizing.ResizeShrinkSucceeds | EPPlus/Drawing/ExcelPicture.cs:356-362 | from 0 to 100 percent the resize succeeds and stays within the image's size |
| Sizing.ResizeFullSize | EPPlus/Drawing/ExcelPicture.cs:356-362 | at 100 percent the picture takes the image's size, whatever size it had |
| Sizing.ResizeFromImage | EPPlus/Drawing/ExcelPicture.cs:358-362 | the result does not depend on the current size, only on the image |
| Pictures.ClickOf | EPPlus/Drawing/ExcelPicture.cs:265-281 | a click element is written exactly when there is a hyperlink and a relationship for it, and it names that hyperlink and that relationship's id |
| Pictures.NewPictureStore | EPPlus/Drawing/ExcelPicture.cs:99-106 | after a new picture `_hashes` maps its hash to the embedded id (the stored id on a hit) and gains only that key; the old relationships are kept as a prefix and at most two are added |
| Pictures.Picture.StartXml | EPPlus/Drawing/ExcelPicture.cs:99 | the node's markup reads back as the picture's id and recorded click element, and holds the empty embed placeholder |
| Pictures.LinkStep | EPPlus/Drawing/ExcelPicture.cs:261-267 | without a hyperlink the store is unchanged; with one, one External hyperlink relationship to its uri is created |
| Pictures.LinkStepKeepsImages | EPPlus/Drawing/ExcelPicture.cs:267 | the hyperlink relationship leaves `_hashes` alone, has a new id, and keeps the store valid |
| Pictures.SameContentSharesRelationship | EPPlus/Drawing/ExcelPicture.cs:140-151 | a second picture of the same content embeds the first one's relationship and adds only its own hyperlink relationship |
| Pictures.DifferentContentSeparates | EPPlus/Drawing/ExcelPicture.cs:140-151 | pictures of different contents never embed the same relationship |
| Pictures.NewPictureStoreValid | EPPlus/Drawing/ExcelPicture.cs:93-161 | creating a picture keeps the drawing's store valid |
| Pictures.ResolvedUri | EPPlus/Drawing/ExcelPicture.cs:229-231 | an id resolves to a part exactly when the drawing has a relationship with that id |
| Pictures.StoredIdResolves | EPPlus/Drawing/ExcelPicture.cs:149-152 | on a valid store every id in `_hashes` resolves to a part |
| Pictures.Picture.LinkHyperlink | EPPlus/Drawing/ExcelPicture.cs:265-267 | the drawing's new state and `HypRel` follow `LinkStep`; without a hyperlink `HypRel` is untouched |
| Pictures.Picture.PicStartXml | EPPlus/Drawing/ExcelPicture.cs:255-288 | creates the hyperlink relationship as `LinkStep` does and returns the fragment whose click element names that relationship |
| Pictures.Picture.SavePicture | EPPlus/Drawing/ExcelPicture.cs:217-246 | the store follows `Dedup` and `ImageHash` is the hash; a hit points `UriPic` at the part the stored relationship targets and leaves `RelPic`; a miss sets `UriPic` to the new part and `RelPic` to the new relationship |
| Pictures.Picture.SaveFilePicture | EPPlus/Drawing/ExcelPicture.cs:137-154 | the same `Dedup` rule; a miss leaves `UriPic` at the offered `/xl/media/` uri while the relationship targets the part the package reports |
| Pictures.Picture.FromImage | EPPlus/Drawing/ExcelPicture.cs:93-114 | the picture is valid (its blip embeds the relationship `_hashes` holds for its hash); the store is `NewPictureStore` of the old one; `HypRel` is the relationship `LinkStep` creates and the markup's click element names it; `UriPic`/`RelPic` as SavePicture leaves them on hit and miss (`RelPic` stays null on a hit); the size is the image's |
| Pictures.Picture.FromFile | EPPlus/Drawing/ExcelPicture.cs:115-161 | as FromImage (store, `HypRel`, click element, validity), plus the content type from the extension, the decoded image and its size, and `UriPic`/`RelPic` on hit and miss |
| Pictures.Picture.SetImage | EPPlus/Drawing/ExcelPicture.cs:295-319 | no image: nothing changes; an image: it is stored, saved through the `Dedup` rule and embedded, and the picture is valid; a hit points `UriPic` at the stored part and keeps `RelPic`, a miss sets both to the new part and relationship; the size is never touched |
| Pictures.Picture.SetSize | EPPlus/Drawing/ExcelPicture.cs:350-367 | the ok flag and the new size are `Resize` of the image, the old size and the percentage |
| Pictures.Picture.Dispose | EPPlus/Drawing/ExcelPicture.cs:425-431 | the hyperlink and the image are gone; `ok` is false when there was no image to dispose |
| Pictures.AddSameImageTwice | EPPlus/Drawing/ExcelPicture.cs:217-246 | two pictures of one image embed the same relationship, add at most one relationship, and keep a valid drawing valid |

## Left out

- The image codec is not modelled. Encoding, decoding and `SKImage` lifetimes are outside the model. A decoded image is its width, height and colour type (`Skia.RawImage`).
- The package layer is not modelled. `AddImage` hashes the encoded bytes and stores the part; its answer arrives as a `StoredImage` (hash and part uri). `GetNewUri`, `AddNewPicture`, `Part` and `package.Flush()` are left out.
- `GetRelativeUri` and `ResolvePartUri` are identities here. A relationship targets the image part's uri, and resolving it gives that uri back.
- Relationship ids are numbers from a counter in `Drawings`. They are written as `rId<n>`. The package's own id scheme is not part of this model.
- The XML document is not modelled. Inserting the `xdr:pic` and `xdr:clientData` nodes is left out. Patching the blip's `r:embed` attribute is the `embed` field. The markup is recorded through `startClick`, and `StartXml()` gives the fragment.
- The constructor that loads an existing picture (ExcelPicture.cs:53-92) is not modelled. It parses the node, reads the image part and resolves the hyperlink.
- `DeleteMe` is not modelled; `RemoveImage` belongs to the package layer.
- `SetPosDefaults`, `EditAs`, `SetPixelWidth` and `SetPixelHeight` are not modelled. They are base-class positioning code. `Picture.SetSize` stops once the two sides are set.
- `base.Dispose()` (ExcelPicture.cs:427) is not modelled; it belongs to the base drawing class. Pictures.Picture.Dispose models only this class's own field resets.
- Pictures.Picture.SavePicture and SaveFilePicture do not throw on a hit whose stored id has no relationship, where the source's `GetRelationship` throws; the model sets `uriPic` to None instead. On a valid store this cannot happen (`StoredIdResolves`).
- Pictures.Picture.FromImage and FromFile do not call `Picture.PicStartXml`: they call its relationship half, `LinkHyperlink`, and record the click element, from which `StartXml()` gives `PicStartXml`'s string. Building the string inside the constructors is beyond the verifier's budget here.
- The base class's `SetSize` is not modelled. Without an image, `Picture.SetSize` keeps the stored size.
- `Fill`, `Border`, `ImageFormat` and `Id` are not modelled. They are property plumbing with no logic of its own.
- Pictures.Picture.FromFile does not order its steps as the source does. The content type and the decoded image are set before the hyperlink relationship is created. Neither touches the drawing, so the end state is the same.
- Pictures.Picture.FromFile reads the size from the decoded image. The source reads it from `_image` after a `using` block has disposed it. The model does not capture that disposal.
- Pictures.Picture.SetImage does not model the wrapping of a failed save into a new exception. In the model, saving cannot fail.
- Pictures.Picture.PicStartXml does not model the case `HypRel == null`. `CreateRelationship` always returns a relationship, so the click element is always written when there is a hyperlink.
- AnchorXml.PicStartXml writes the tooltip without XML escaping, as the source does. `AnchorXml.ReadPicStart` takes the tooltip to be all the text before the fixed tail. So the round trip says nothing about how an XML parser would read a tooltip that holds a quote.
- ContentTypes.ToLower lower-cases only the ASCII letters A-Z. The invariant culture also lower-cases other letters; no extension or content type in the two tables contains one.
- Pictures.Picture.SetImage, FromImage, FromFile, SavePicture and SaveFilePicture do not state that the drawing's store stays valid. They state the store they leave as `Dedup`, `LinkStep` or `NewPictureStore` of the old store. Validity is proved on those functions by `DedupValid`, `LinkStepKeepsImages` and `NewPictureStoreValid`.
- Sizing.Scale assumes the `decimal` product never overflows. With 32-bit operands it stays below 2^62, well inside `decimal`'s range.
