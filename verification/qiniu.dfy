/**
 * The server's image upload to Qiniu cloud storage: the size and format
 * checks, the object key built from the file name, the returned URL, and the
 * zone table of the SDK configuration. The SDK, the MD5 digest and the clock
 * are external: the digest function, the formatted time and the SDK's
 * replies are parameters.
 */
module Qiniu {
  import opened Wrappers

  /** Bytes in a megabyte, as the size check counts them. */
  const MB: int := 1024 * 1024

  /** `filepath.Ext`: from the last dot of the last path element to the end, or nothing. */
  function Ext(path: string): (e: string)
    ensures |e| <= |path| && path[|path| - |e|..] == e
    ensures e == [] || (e[0] == '.' && forall k :: 1 <= k < |e| ==> e[k] != '.' && e[k] != '/')
  {
    if path == [] then []
    else
      var c := path[|path| - 1];
      if c == '/' then []
      else if c == '.' then ['.']
      else
        var e := Ext(path[..|path| - 1]);
        if e == [] then [] else e + [c]
  }

  /** A name without a dot has no extension. */
  lemma {:induction false} ExtNone(path: string)
    requires forall k :: 0 <= k < |path| ==> path[k] != '.'
    ensures Ext(path) == []
    decreases |path|
  {
    if path != [] {
      ExtNone(path[..|path| - 1]);
    }
  }

  /** Anything followed by an extension has that extension. */
  lemma {:induction false} ExtOfSuffix(p: string, e: string)
    requires e != [] && e[0] == '.' && forall k :: 1 <= k < |e| ==> e[k] != '.' && e[k] != '/'
    ensures Ext(p + e) == e
    decreases |e|
  {
    var s := p + e;
    var c := e[|e| - 1];
    assert s[|s| - 1] == c;
    if |e| > 1 {
      var init := e[..|e| - 1];
      assert c != '/' && c != '.';
      assert s[..|s| - 1] == p + init;
      ExtOfSuffix(p, init);
      assert Ext(s) == init + [c];
      assert init + [c] == e;
    } else {
      assert e == ['.'];
    }
  }

  /** `strings.TrimSuffix(name, ext)`: the name without its extension. */
  function Stem(filename: string): (stem: string)
    ensures stem + Ext(filename) == filename
  {
    var e := Ext(filename);
    assert filename[..|filename| - |e|] + filename[|filename| - |e|..] == filename;
    filename[..|filename| - |e|]
  }

  /** The object key: digest of the stem, a dash, the upload time, the extension. */
  function FileKey(digest: string, stamp: string, ext: string): (key: string)
    ensures key == digest + "-" + stamp + ext
  {
    digest + "-" + stamp + ext
  }

  /** With a hex digest and a digit timestamp, the key keeps the file's extension. */
  lemma KeyKeepsExtension(digest: string, stamp: string, filename: string)
    requires forall k :: 0 <= k < |digest| ==> digest[k] != '.'
    requires forall k :: 0 <= k < |stamp| ==> stamp[k] != '.'
    ensures Ext(FileKey(digest, stamp, Ext(filename))) == Ext(filename)
  {
    var e := Ext(filename);
    var p := digest + "-" + stamp;
    assert FileKey(digest, stamp, e) == p + e;
    if e == [] {
      assert p + e == p;
      forall k | 0 <= k < |p|
        ensures p[k] != '.'
      {
        if k < |digest| {
          assert p[k] == digest[k];
        } else if k > |digest| {
          assert p[k] == stamp[k - |digest| - 1];
        }
      }
      ExtNone(p);
    } else {
      ExtOfSuffix(p, e);
    }
  }

  datatype FileHeader = FileHeader(filename: string, size: int)

  /** The upload part of the configuration. */
  datatype UploadConfig = UploadConfig(sizeLimitMB: int, imgPath: string, whiteList: set<string>)

  datatype UploadError = TooLarge(size: int, limitMB: int) | InvalidFormat | OpenFailed(msg: string) | PutFailed(msg: string)

  /** Whether a file of this many bytes is refused: its size in megabytes reaches the limit. */
  predicate TooBig(size: int, limitMB: int)
  {
    size >= limitMB * MB
  }

  /** A file exactly at the limit is refused, and one byte less is accepted. */
  lemma LimitIsExclusive(limitMB: int)
    ensures TooBig(limitMB * MB, limitMB)
    ensures !TooBig(limitMB * MB - 1, limitMB)
  {
  }

  /** What the upload returns: the public URL and the object key. */
  datatype Uploaded = Uploaded(url: string, key: string)

  /**
   * `UploadImage`: the size check, then the extension check, then the open
   * and the upload of the object under its key. `md5` is the digest,
   * `stamp` the formatted clock, `open` the error of opening the file if any,
   * and `put` the storage's reply for the key it was given.
   */
  function UploadImage(file: FileHeader, cfg: UploadConfig, md5: string -> string, stamp: string,
                       open: Option<string>, put: string -> Result<string, string>): (r: Result<Uploaded, UploadError>)
    ensures TooBig(file.size, cfg.sizeLimitMB) ==> r == Err(TooLarge(file.size, cfg.sizeLimitMB))
    ensures !TooBig(file.size, cfg.sizeLimitMB) && Ext(file.filename) !in cfg.whiteList ==> r == Err(InvalidFormat)
    ensures var key := FileKey(md5(Stem(file.filename)), stamp, Ext(file.filename));
      && (r.Ok? <==> !TooBig(file.size, cfg.sizeLimitMB) && Ext(file.filename) in cfg.whiteList
                     && open.None? && put(key).Ok?)
      && (r.Ok? ==> r.value == Uploaded(cfg.imgPath + put(key).value, put(key).value))
    ensures !TooBig(file.size, cfg.sizeLimitMB) && Ext(file.filename) in cfg.whiteList && open.Some? ==>
      r == Err(OpenFailed(open.value))
    ensures var key := FileKey(md5(Stem(file.filename)), stamp, Ext(file.filename));
      !TooBig(file.size, cfg.sizeLimitMB) && Ext(file.filename) in cfg.whiteList && open.None? && put(key).Err? ==>
        r == Err(PutFailed(put(key).error))
  {
    if TooBig(file.size, cfg.sizeLimitMB) then Err(TooLarge(file.size, cfg.sizeLimitMB))
    else
      var ext := Ext(file.filename);
      if ext !in cfg.whiteList then Err(InvalidFormat)
      else
        var key := FileKey(md5(Stem(file.filename)), stamp, ext);
        if open.Some? then Err(OpenFailed(open.value))
        else match put(key)
          case Err(msg) => Err(PutFailed(msg))
          case Ok(stored) => Ok(Uploaded(cfg.imgPath + stored, stored))
  }

  /** When the storage keeps the key it was sent, the URL is the image path followed by that key, which ends in the file's extension. */
  lemma UploadedUrl(file: FileHeader, cfg: UploadConfig, md5: string -> string, stamp: string,
                    put: string -> Result<string, string>)
    requires forall s :: put(s).Ok? ==> put(s).value == s
    requires UploadImage(file, cfg, md5, stamp, None, put).Ok?
    ensures var u := UploadImage(file, cfg, md5, stamp, None, put).value;
      && u.key == FileKey(md5(Stem(file.filename)), stamp, Ext(file.filename))
      && u.url == cfg.imgPath + u.key
      && u.key[|u.key| - |Ext(file.filename)|..] == Ext(file.filename)
  {
    var e := Ext(file.filename);
    var key := FileKey(md5(Stem(file.filename)), stamp, e);
    assert key[|key| - |e|..] == e;
  }

  /** The storage regions of the SDK. */
  datatype Zone = Huadong | Huabei | Huanan | Beimei | Xinjiapo | HuadongZheJiang2

  /** The zone a configured name selects; an unknown name selects none. */
  function ZoneOf(name: string): (z: Option<Zone>)
    ensures z.Some? <==> name in {"z0", "ZoneHuadong", "z1", "ZoneHuabei", "z2", "ZoneHuanan",
                                  "na0", "ZoneBeimei", "as0", "ZoneXinjiapo", "ZoneHuadongZheJiang2"}
  {
    match name
    case "z0" => Some(Huadong)
    case "ZoneHuadong" => Some(Huadong)
    case "z1" => Some(Huabei)
    case "ZoneHuabei" => Some(Huabei)
    case "z2" => Some(Huanan)
    case "ZoneHuanan" => Some(Huanan)
    case "na0" => Some(Beimei)
    case "ZoneBeimei" => Some(Beimei)
    case "as0" => Some(Xinjiapo)
    case "ZoneXinjiapo" => Some(Xinjiapo)
    case "ZoneHuadongZheJiang2" => Some(HuadongZheJiang2)
    case _ => None
  }

  /** The names a zone answers to: its long name, and its short code when it has one. */
  function ZoneNames(z: Zone): set<string>
  {
    match z
    case Huadong => {"z0", "ZoneHuadong"}
    case Huabei => {"z1", "ZoneHuabei"}
    case Huanan => {"z2", "ZoneHuanan"}
    case Beimei => {"na0", "ZoneBeimei"}
    case Xinjiapo => {"as0", "ZoneXinjiapo"}
    case HuadongZheJiang2 => {"ZoneHuadongZheJiang2"}
  }

  /** A name selects a zone exactly when it is one of that zone's names. */
  lemma ZoneTable(name: string, z: Zone)
    ensures ZoneOf(name) == Some(z) <==> name in ZoneNames(z)
  {
  }

  lemma ZoneTableAll(name: string)
    ensures forall z :: ZoneOf(name) == Some(z) <==> name in ZoneNames(z)
  {
    forall z
      ensures ZoneOf(name) == Some(z) <==> name in ZoneNames(z)
    {
      ZoneTable(name, z);
    }
  }

  datatype QiniuSettings = QiniuSettings(zone: string, useHttps: bool, useCdnDomains: bool)

  datatype StorageConfig = StorageConfig(useHttps: bool, useCdnDomains: bool, zone: Option<Zone>)

  /** `qiniuConfig`: the two flags copied, the zone looked up. */
  function QiniuConfig(s: QiniuSettings): (c: StorageConfig)
    ensures c.useHttps == s.useHttps && c.useCdnDomains == s.useCdnDomains
    ensures c.zone.Some? ==> s.zone in ZoneNames(c.zone.value)
    ensures c.zone.None? ==> forall z :: s.zone !in ZoneNames(z)
  {
    ZoneTableAll(s.zone);
    StorageConfig(s.useHttps, s.useCdnDomains, ZoneOf(s.zone))
  }
}
