/**
  The names the handlers make up for uploaded files: the S3 key and public
  URL of a video, and the on-disk file name, path and URL of a thumbnail.
  The 32 random bytes that `crypto/rand` supplies arrive as a parameter.
 */
module Keys {
  import opened Wrappers
  import opened Base64
  import opened Strings

  /** How many random bytes both handlers draw for a name. */
  const RandomByteCount: nat := 32

  /** Unpadded base 64 of 32 bytes is 43 characters long. */
  lemma RandomNameLength(randBytes: seq<byte>)
    requires |randBytes| == RandomByteCount
    ensures |Encode(UrlSafe, randBytes)| == 43 && |Encode(Standard, randBytes)| == 43
  {
  }

  /** The S3 key: the orientation prefix, a slash, the URL-safe name, ".mp4". */
  function VideoKey(prefix: string, randBytes: seq<byte>): (key: string)
    requires |randBytes| == RandomByteCount
    ensures |key| == |prefix| + 48
    ensures key[..|prefix|] == prefix && key[|prefix|] == '/'
    ensures key[|key| - 4..] == ".mp4"
    ensures forall i :: |prefix| < i < |key| - 4 ==> IsAlphabetChar(UrlSafe, key[i])
    ensures '/' !in prefix ==> forall i :: 0 <= i < |key| && key[i] == '/' ==> i == |prefix|
  {
    var name := Encode(UrlSafe, randBytes);
    var key := prefix + "/" + name + ".mp4";
    assert forall i :: |prefix| < i < |key| - 4 ==> key[i] == name[i - |prefix| - 1];
    key
  }

  /**
    Splits a video key back into its prefix and random bytes. The handlers
    never do this; it is the inverse that shows a key keeps everything it was
    built from.
   */
  function ParseVideoKey(key: string): (r: Option<(string, seq<byte>)>)
    ensures r.Some? ==> '/' !in r.value.0
  {
    var parts := Split(key, '/');
    if |parts| != 2 then None
    else
      var file := parts[1];
      if |file| < 4 || file[|file| - 4..] != ".mp4" then None
      else
        var bytes :- Decode(UrlSafe, file[..|file| - 4]);
        Some((parts[0], bytes))
  }

  /** A key built from a slash-free prefix splits back into that prefix and the same bytes. */
  lemma VideoKeyRoundTrip(prefix: string, randBytes: seq<byte>)
    requires |randBytes| == RandomByteCount
    requires '/' !in prefix
    ensures ParseVideoKey(VideoKey(prefix, randBytes)) == Some((prefix, randBytes))
  {
    var name := Encode(UrlSafe, randBytes);
    var file := name + ".mp4";
    VideoKeySegments(prefix, randBytes);
    assert file[..|file| - 4] == name;
    DecodeEncode(UrlSafe, randBytes);
  }

  /** A key built from a slash-free prefix has two path pieces: the prefix and the file name. */
  lemma VideoKeySegments(prefix: string, randBytes: seq<byte>)
    requires |randBytes| == RandomByteCount
    requires '/' !in prefix
    ensures Split(VideoKey(prefix, randBytes), '/') == [prefix, Encode(UrlSafe, randBytes) + ".mp4"]
  {
    var name := Encode(UrlSafe, randBytes);
    var file := name + ".mp4";
    UrlSafeHasNoSlash(randBytes);
    assert '/' !in file by {
      assert forall i :: 0 <= i < |file| ==> file[i] == (if i < |name| then name[i] else ".mp4"[i - |name|]);
    }
    assert VideoKey(prefix, randBytes) == Join([prefix, file], '/');
    SplitJoin([prefix, file], '/');
  }

  /** Distinct random bytes, or distinct prefixes, never share a key. */
  lemma VideoKeyInjective(p1: string, b1: seq<byte>, p2: string, b2: seq<byte>)
    requires |b1| == RandomByteCount && |b2| == RandomByteCount
    requires '/' !in p1 && '/' !in p2
    requires VideoKey(p1, b1) == VideoKey(p2, b2)
    ensures p1 == p2 && b1 == b2
  {
    VideoKeyRoundTrip(p1, b1);
    VideoKeyRoundTrip(p2, b2);
  }

  /** The public URL of a video: the CloudFront distribution host, then the key. */
  function VideoUrl(distribution: string, key: string): (url: string)
    ensures |url| == 9 + |distribution| + |key|
    ensures url[..8] == "https://" && url[8..8 + |distribution|] == distribution
    ensures url[8 + |distribution|] == '/' && url[9 + |distribution|..] == key
  {
    var url := "https://" + distribution + "/" + key;
    assert url[..8] == "https://";
    assert url[8..8 + |distribution|] == distribution;
    url
  }

  /**
    For a host without '/', the video URL's path pieces are the scheme, an
    empty piece, the host, and then exactly the pieces of the key.
   */
  lemma VideoUrlSegments(distribution: string, key: string)
    requires '/' !in distribution
    ensures Split(VideoUrl(distribution, key), '/') == ["https:", "", distribution] + Split(key, '/')
  {
    assert VideoUrl(distribution, key) == "https:" + "/" + "" + "/" + distribution + "/" + key;
    SplitAfterThree("https:", "", distribution, key, '/');
  }

  /** So a video URL has five path pieces, the last two being the orientation and the file name. */
  lemma VideoUrlOfKeySegments(distribution: string, prefix: string, randBytes: seq<byte>)
    requires |randBytes| == RandomByteCount
    requires '/' !in distribution && '/' !in prefix
    ensures Split(VideoUrl(distribution, VideoKey(prefix, randBytes)), '/')
         == ["https:", "", distribution, prefix, Encode(UrlSafe, randBytes) + ".mp4"]
  {
    VideoUrlSegments(distribution, VideoKey(prefix, randBytes));
    VideoKeySegments(prefix, randBytes);
  }

  /**
    The thumbnail file name: standard unpadded base 64 with every '/' deleted
    where it stands. The characters that remain keep their order: cut the
    encoding anywhere, and the name is what is left of the left part followed
    by what is left of the right part.
   */
  function ThumbnailFileName(randBytes: seq<byte>): (name: string)
    requires |randBytes| == RandomByteCount
    ensures '/' !in name
    ensures |name| <= 43
    ensures forall i :: 0 <= i < |name| ==> IsAlphabetChar(Standard, name[i])
    ensures forall x :: x != '/' ==> multiset(name)[x] == multiset(Encode(Standard, randBytes))[x]
    ensures '/' !in Encode(Standard, randBytes) ==> name == Encode(Standard, randBytes)
    ensures var encoded := Encode(Standard, randBytes);
            forall k :: 0 <= k <= |encoded| ==> name == RemoveAll(encoded[..k], '/') + RemoveAll(encoded[k..], '/')
  {
    var encoded := Encode(Standard, randBytes);
    var name := RemoveAll(encoded, '/');
    assert forall x :: x != '/' ==> multiset(name)[x] == multiset(encoded)[x] by {
      RemoveAllCounts(encoded, '/');
    }
    assert forall i :: 0 <= i < |name| ==> IsAlphabetChar(Standard, name[i]) by {
      RemoveAllSubset(encoded, '/');
    }
    assert forall k :: 0 <= k <= |encoded| ==> name == RemoveAll(encoded[..k], '/') + RemoveAll(encoded[k..], '/') by {
      RemoveAllSplit(encoded, '/');
    }
    assert '/' !in encoded ==> name == encoded by {
      if '/' !in encoded { RemoveAbsent(encoded, '/'); }
    }
    name
  }

  /** `strings.Split(mediaType, "/")[1]`; None where Go would panic on a missing '/'. */
  function FileExtension(mediaType: string): (r: Option<string>)
    ensures r.Some? <==> '/' in mediaType
    ensures r.Some? ==> '/' !in r.value
  {
    var parts := Split(mediaType, '/');
    assert '/' !in mediaType ==> |parts| == 1 by {
      if '/' !in mediaType { SplitWhole(mediaType, '/'); }
    }
    if |parts| >= 2 then Some(parts[1]) else None
  }

  /** The extension is the subtype of a type/subtype media type. */
  lemma ExtensionIsSubtype(typ: string, subtype: string)
    requires '/' !in typ && '/' !in subtype
    ensures FileExtension(typ + "/" + subtype) == Some(subtype)
  {
    assert typ + "/" + subtype == Join([typ, subtype], '/');
    SplitJoin([typ, subtype], '/');
  }

  /** `filepath.Join(root, file)`: the file alone under an empty root, else root, '/', file. */
  function AssetPath(root: string, file: string): (path: string)
    ensures root == "" ==> path == file
    ensures root != "" ==> |path| == |root| + 1 + |file|
    ensures root != "" ==> path[..|root|] == root && path[|root|] == '/' && path[|root| + 1..] == file
  {
    if root == "" then file
    else
      var path := root + "/" + file;
      assert path[..|root|] == root;
      path
  }

  /** A separator-free file name is the last path segment of its asset path, whatever the root. */
  lemma AssetPathLastSegment(root: string, file: string)
    requires '/' !in file
    ensures var parts := Split(AssetPath(root, file), '/');
            parts[|parts| - 1] == file
  {
    SplitWhole(file, '/');
    if root != "" {
      SplitAtSeparator(root, file, '/');
    }
  }

  /** The thumbnail URL served by the application's own /assets/ route. */
  function ThumbnailUrl(port: string, name: string, extension: string): (url: string)
    ensures |url| == 26 + |port| + |name| + |extension|
    ensures url[..17] == "http://localhost:" && url[17..17 + |port|] == port
    ensures url[17 + |port|..25 + |port|] == "/assets/"
    ensures url[25 + |port|..] == name + "." + extension
  {
    var url := "http://localhost:" + port + "/assets/" + name + "." + extension;
    assert url[..17] == "http://localhost:";
    assert url[17..17 + |port|] == port;
    assert url[17 + |port|..25 + |port|] == "/assets/";
    assert url[25 + |port|..] == name + "." + extension;
    url
  }

  /** The thumbnail URL regrouped around its slashes. */
  lemma ThumbnailUrlPieces(port: string, name: string, extension: string)
    ensures ThumbnailUrl(port, name, extension)
         == "http:" + "/" + "" + "/" + ("localhost:" + port) + "/" + ("assets" + "/" + (name + "." + extension))
  {
    assert "http://localhost:" == "http:" + "/" + "" + "/" + "localhost:";
    assert "/assets/" == "/" + "assets" + "/";
  }

  /**
    Dropping '/' from the name keeps the thumbnail a single path segment
    under /assets/: the URL's path pieces are exactly the scheme, the host,
    "assets" and the file name.
   */
  lemma ThumbnailUrlSegments(port: string, name: string, extension: string)
    requires '/' !in port && '/' !in name && '/' !in extension
    ensures Split(ThumbnailUrl(port, name, extension), '/')
         == ["http:", "", "localhost:" + port, "assets", name + "." + extension]
  {
    var file := name + "." + extension;
    assert '/' !in file by {
      assert forall i :: 0 <= i < |file| ==> file[i] == (if i < |name| then name[i] else ("." + extension)[i - |name|]);
    }
    assert '/' !in "localhost:" + port by {
      assert forall i :: 10 <= i < |"localhost:" + port| ==> ("localhost:" + port)[i] == port[i - 10];
    }
    var host, rest := "localhost:" + port, "assets" + "/" + file;
    assert Split(rest, '/') == ["assets", file] by {
      SplitAfterPiece("assets", '/', file);
      SplitWhole(file, '/');
    }
    ThumbnailUrlPieces(port, name, extension);
    SplitAfterThree("http:", "", host, rest, '/');
  }
}
