/** The trade service: business rules over the store. Each operation
    checks that the trade exists first, so the "not found" it can raise
    later is never reached; the files it removes from the upload directory
    are returned as the list of their names. */
module TradeService {
  import opened Util
  import opened TradeModel
  import opened ErrorHandler
  import opened TradeRepository

  /** A file the upload middleware stored: stored name, original name, size and MIME type */
  datatype UploadedFile = UploadedFile(filename: string, originalName: string, size: int, mimeType: string)

  /** The image data recorded for each uploaded file, in order */
  function ImagesData(files: seq<UploadedFile>): (r: seq<ImageData>)
    ensures |r| == |files|
    ensures forall k :: 0 <= k < |files| ==>
              r[k] == ImageData(files[k].filename, files[k].originalName, files[k].size, files[k].mimeType)
  {
    if files == [] then []
    else [ImageData(files[0].filename, files[0].originalName, files[0].size, files[0].mimeType)] + ImagesData(files[1..])
  }

  /** The stored names of some images, whose files are removed from disk */
  function Filenames(images: seq<ImageRow>): (r: seq<string>)
    ensures |r| == |images| && forall k :: 0 <= k < |images| ==> r[k] == images[k].data.filename
  {
    if images == [] then [] else [images[0].data.filename] + Filenames(images[1..])
  }

  function TradeNotFound(id: nat): (e: Thrown)
    ensures e.Operational? && e.e.cls == NotFound && e.e.statusCode == 404
    ensures e.e.message == "Trade con ID " + NatToString(id) + " no encontrado"
  {
    Operational(NewNotFoundError(Some("Trade con ID " + NatToString(id) + " no encontrado")))
  }

  const NoImagesGiven := Operational(NewNotFoundError(Some("No se proporcionaron imágenes")))
  const ImageNotFound := Operational(NewNotFoundError(Some("Imagen no encontrada")))
  const TradeHasNoImages := Operational(NewNotFoundError(Some("El trade no tiene imágenes")))

  /** `getTradeById(id)`: the live trade, or a 404 naming the id */
  function GetTradeById(store: TradeStore, id: nat): (r: Result<Trade, Thrown>)
    reads store
    ensures r.Err? <==> store.FindById(id).None?
    ensures r.Err? ==> r.error == TradeNotFound(id)
    ensures r.Ok? ==> Some(r.value) == store.FindById(id)
  {
    match store.FindById(id)
    case None => Err(TradeNotFound(id))
    case Some(t) => Ok(t)
  }

  /** The create input with its exit date filled in: a truthy exit price
      without an exit date gets the current time */
  function WithExitDate(d: TradeData, now: int): (e: TradeData)
    ensures e == d.(exitDate := e.exitDate)
    ensures d.exitPrice.Some? && d.exitPrice.value != 0.0 && d.exitDate.None? ==> e.exitDate == Some(now)
    ensures !(d.exitPrice.Some? && d.exitPrice.value != 0.0) || d.exitDate.Some? ==> e.exitDate == d.exitDate
  {
    if d.exitPrice.Some? && d.exitPrice.value != 0.0 && d.exitDate.None? then d.(exitDate := Some(now)) else d
  }

  /** A trade is stored closed exactly when it was created with a non-zero
      exit price. */
  lemma CreatedStatus(d: TradeData, now: int)
    ensures Status(InsertFields(WithExitDate(d, now))) == Closed <==> d.exitPrice.Some? && d.exitPrice.value != 0.0
  {
  }

  /** `createTrade(tradeData, files)`: the row, then its images when files
      were uploaded. What it returns is what a later lookup finds. */
  method CreateTrade(store: TradeStore, d: TradeData, files: seq<UploadedFile>, now: int) returns (r: Result<Trade, Thrown>)
    requires store.Valid()
    modifies store
    ensures store.Valid()
    ensures var f := InsertFields(WithExitDate(d, now));
            store.rejects(f).Some? ==>
              r == Err(store.rejects(f).value) && store.trades == old(store.trades) && store.images == old(store.images)
    ensures var f := InsertFields(WithExitDate(d, now));
            store.rejects(f).None? ==>
              && r.Ok? && r.value.id == old(store.nextTradeId) && r.value.fields == f && r.value.status == Status(f)
              && store.trades == old(store.trades) + [TradeRow(r.value.id, f, false)]
              && r.value.images == ImageRows(r.value.id, old(store.nextImageId), ImagesData(files))
              && store.images == old(store.images) + r.value.images
              && store.FindById(r.value.id) == Some(r.value)
  {
    var data := WithExitDate(d, now);
    var created := store.Create(data);
    if created.Ok? {
      var trade := AttachUploads(store, created.value, files);
      r := Ok(trade);
    } else {
      r := Err(created.error);
    }
  }

  /** The second step of `createTrade`: a just-created trade gets the
      uploaded files as its images */
  method AttachUploads(store: TradeStore, trade: Trade, files: seq<UploadedFile>) returns (t: Trade)
    requires store.Valid() && store.FindById(trade.id) == Some(trade) && trade.images == []
    modifies store
    ensures store.Valid() && store.trades == old(store.trades)
    ensures t == trade.(images := ImageRows(trade.id, old(store.nextImageId), ImagesData(files)))
    ensures store.images == old(store.images) + t.images
    ensures store.FindById(t.id) == Some(t)
  {
    t := trade;
    if |files| > 0 {
      assert LiveRow(store.trades, trade.id).value in store.trades;
      var added := store.AddImages(trade.id, ImagesData(files));
      assert [] + added.value == added.value;
      t := trade.(images := added.value);
    }
  }

  /** `updateTrade(id, updateData, newFiles)`: 404 when there is no live
      trade; otherwise the update, then the new images appended to the
      trade's own. The second 404 of the source cannot be reached. */
  method UpdateTrade(store: TradeStore, id: nat, updateData: seq<Entry>, newFiles: seq<UploadedFile>)
    returns (r: Result<Trade, Thrown>)
    requires store.Valid()
    modifies store
    ensures store.Valid()
    ensures old(store.FindById(id)).None? ==>
              r == Err(TradeNotFound(id)) && store.trades == old(store.trades) && store.images == old(store.images)
    ensures old(store.FindById(id)).Some? ==>
              (r.Ok? <==> Allowed(updateData) == [] || ApplyToRows(old(store.trades), id, Allowed(updateData), store.rejects).None?)
    ensures r.Err? ==> store.trades == old(store.trades) && store.images == old(store.images)
    ensures r.Ok? ==> && Some(r.value) == store.FindById(id)
                      && store.images == old(store.images) + ImageRows(id, old(store.nextImageId), ImagesData(newFiles))
                      && r.value.images == old(store.TradeImages(id)) + ImageRows(id, old(store.nextImageId), ImagesData(newFiles))
    ensures r.Ok? && Allowed(updateData) != [] ==>
              && AssignAll(old(store.FindById(id)).value.fields, Allowed(updateData)).Some?
              && r.value.fields == AssignAll(old(store.FindById(id)).value.fields, Allowed(updateData)).value
    ensures r.Ok? && Allowed(updateData) == [] ==> r.value.fields == old(store.FindById(id)).value.fields
  {
    var existing := GetTradeById(store, id);
    if existing.Err? {
      return Err(existing.error);
    }
    var updated, _, _ := store.Update(id, updateData);
    if updated.Err? {
      return Err(updated.error);
    }
    // the trade was live, so the update finds it: the source's second 404 is never raised
    assert updated.value.Some?;
    var trade := updated.value.value;
    if |newFiles| > 0 {
      var live := LiveRow(store.trades, id);
      assert live.value in store.trades;
      var added := store.AddImages(id, ImagesData(newFiles));
      trade := trade.(images := trade.images + added.value);
    }
    return Ok(trade);
  }

  /** `deleteTrade(id, permanent)`: 404 when there is no live trade;
      otherwise a permanent delete removes the row, its images and their
      files, and a soft delete only marks the row. */
  method DeleteTrade(store: TradeStore, id: nat, permanent: bool) returns (r: Result<(), Thrown>, removed: seq<string>)
    requires store.Valid()
    modifies store
    ensures store.Valid()
    ensures r.Err? <==> old(store.FindById(id)).None?
    ensures r.Err? ==> r.error == TradeNotFound(id) && removed == [] &&
                       store.trades == old(store.trades) && store.images == old(store.images)
    ensures r.Ok? ==> store.FindById(id).None?
    ensures r.Ok? && permanent ==>
              && removed == Filenames(old(store.TradeImages(id)))
              && store.trades == Filter(old(store.trades), (t: TradeRow) => t.id != id)
              && store.images == Filter(old(store.images), (x: ImageRow) => x.tradeId != id)
    ensures r.Ok? && !permanent ==>
              removed == [] && store.trades == MarkDeleted(old(store.trades), id) && store.images == old(store.images)
  {
    var existing := GetTradeById(store, id);
    if existing.Err? {
      return Err(existing.error), [];
    }
    var trade := existing.value;
    removed := [];
    if |trade.images| > 0 && permanent {
      removed := Filenames(trade.images);
    }
    var deleted;
    if permanent {
      assert LiveRow(store.trades, id).value in store.trades;
      deleted := store.HardDelete(id);
    } else {
      deleted := store.SoftDelete(id);
    }
    // the trade was live, so a row is deleted: the source's second 404 is never raised
    assert deleted;
    return Ok(()), removed;
  }

  /** `addImages(tradeId, files)`: 404 when there is no live trade or no
      file; otherwise every file becomes an image row of the trade. */
  method AddTradeImages(store: TradeStore, tradeId: nat, files: seq<UploadedFile>) returns (r: Result<seq<ImageRow>, Thrown>)
    requires store.Valid()
    modifies store
    ensures store.Valid() && store.trades == old(store.trades)
    ensures old(store.FindById(tradeId)).None? ==> r == Err(TradeNotFound(tradeId))
    ensures old(store.FindById(tradeId)).Some? && files == [] ==> r == Err(NoImagesGiven)
    ensures r.Err? ==> store.images == old(store.images)
    ensures old(store.FindById(tradeId)).Some? && files != [] ==>
              && r == Ok(ImageRows(tradeId, old(store.nextImageId), ImagesData(files)))
              && store.images == old(store.images) + r.value
              && store.TradeImages(tradeId) == old(store.TradeImages(tradeId)) + r.value
  {
    var existing := GetTradeById(store, tradeId);
    if existing.Err? {
      return Err(existing.error);
    }
    if |files| == 0 {
      return Err(NoImagesGiven);
    }
    assert LiveRow(store.trades, tradeId).value in store.trades;
    r := store.AddImages(tradeId, ImagesData(files));
  }

  /** `deleteImage(tradeId, imageId)`: 404 unless the trade is live and
      the image belongs to it; otherwise the image row and its file go,
      and the trade is returned without it. */
  method DeleteTradeImage(store: TradeStore, tradeId: nat, imageId: nat) returns (r: Result<Trade, Thrown>, removed: seq<string>)
    requires store.Valid()
    modifies store
    ensures store.Valid() && store.trades == old(store.trades)
    ensures old(store.FindById(tradeId)).None? ==> r == Err(TradeNotFound(tradeId))
    ensures old(store.FindById(tradeId)).Some? &&
            (old(store.GetImageById(imageId)).None? || old(store.GetImageById(imageId)).value.tradeId != tradeId) ==>
              r == Err(ImageNotFound)
    ensures r.Err? ==> removed == [] && store.images == old(store.images)
    ensures r.Ok? ==>
              && old(store.GetImageById(imageId)).Some? && old(store.GetImageById(imageId)).value.tradeId == tradeId
              && removed == [old(store.GetImageById(imageId)).value.data.filename]
              && store.images == Filter(old(store.images), (x: ImageRow) => x.id != imageId)
              && Some(r.value) == store.FindById(tradeId)
    ensures (old(store.FindById(tradeId)).Some? && old(store.GetImageById(imageId)).Some? &&
             old(store.GetImageById(imageId)).value.tradeId == tradeId) ==> r.Ok?
  {
    var existing := GetTradeById(store, tradeId);
    if existing.Err? {
      return Err(existing.error), [];
    }
    var image := store.GetImageById(imageId);
    if image.None? || image.value.tradeId != tradeId {
      return Err(ImageNotFound), [];
    }
    removed := [image.value.data.filename];
    var _ := store.DeleteImage(imageId);
    r := GetTradeById(store, tradeId);
  }

  /** `deleteAllImages(tradeId)`: 404 when there is no live trade or it has
      no images; otherwise every image row and file of the trade goes. */
  method DeleteAllTradeImages(store: TradeStore, tradeId: nat) returns (r: Result<Trade, Thrown>, removed: seq<string>)
    requires store.Valid()
    modifies store
    ensures store.Valid() && store.trades == old(store.trades)
    ensures old(store.FindById(tradeId)).None? ==> r == Err(TradeNotFound(tradeId))
    ensures old(store.FindById(tradeId)).Some? && old(store.TradeImages(tradeId)) == [] ==> r == Err(TradeHasNoImages)
    ensures r.Err? ==> removed == [] && store.images == old(store.images)
    ensures old(store.FindById(tradeId)).Some? && old(store.TradeImages(tradeId)) != [] ==>
              && removed == Filenames(old(store.TradeImages(tradeId)))
              && store.images == Filter(old(store.images), (x: ImageRow) => x.tradeId != tradeId)
              && r.Ok? && Some(r.value) == store.FindById(tradeId) && r.value.images == []
  {
    var existing := GetTradeById(store, tradeId);
    if existing.Err? {
      return Err(existing.error), [];
    }
    var trade := existing.value;
    if |trade.images| == 0 {
      return Err(TradeHasNoImages), [];
    }
    removed := Filenames(trade.images);
    var _ := store.DeleteAllImages(tradeId);
    r := GetTradeById(store, tradeId);
  }
}
