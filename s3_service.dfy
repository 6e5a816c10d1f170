/**
 * Object naming for uploaded screenshots and the public URL of a stored object.
 * The `putObject` call itself is outside the model; the store records that it
 * was made.
 */
module S3Service {
  import opened Wrappers
  import opened Text
  import opened Domain

  const KeyPrefix: string := "analysis/"

  /**
   * The original file name's extension: from its last `.` to the end, or empty
   * when there is no name or the name has no `.`.
   */
  function Extension(originalFileName: Option<string>): (r: string)
    ensures originalFileName.None? ==> r == ""
    ensures originalFileName.Some? && '.' !in originalFileName.value ==> r == ""
    ensures originalFileName.Some? && '.' in originalFileName.value ==>
              && |r| <= |originalFileName.value|
              && r == originalFileName.value[|originalFileName.value| - |r|..]
              && |r| > 0 && r[0] == '.' && '.' !in r[1..]
  {
    match originalFileName
    case None => ""
    case Some(name) =>
      match LastIndexOf(name, ".")
      case None =>
        assert '.' !in name by {
          forall k | 0 <= k < |name| ensures name[k] != '.' {
            assert !OccursAt(name, ".", k);
            assert name[k..k + 1] == [name[k]];
          }
        }
        ""
      case Some(i) =>
        var ext := name[i..];
        assert ext[0] == '.' by {
          assert name[i..i + 1] == ".";
        }
        assert '.' !in ext[1..] by {
          forall k | 0 <= k < |ext[1..]| ensures ext[1..][k] != '.' {
            assert !OccursAt(name, ".", i + 1 + k);
            assert name[i + 1 + k..i + 1 + k + 1] == [ext[1..][k]];
          }
        }
        ext
  }

  /** `generateFileName`: the object key `analysis/<uuid><extension>`. */
  function GenerateFileName(originalFileName: Option<string>, uuid: Uuid): (r: string)
    ensures |r| == |KeyPrefix| + |uuid.text| + |Extension(originalFileName)|
    ensures r[..|KeyPrefix|] == KeyPrefix
    ensures r[|KeyPrefix|..|KeyPrefix| + |uuid.text|] == uuid.text
    ensures r[|KeyPrefix| + |uuid.text|..] == Extension(originalFileName)
  {
    KeyPrefix + uuid.text + Extension(originalFileName)
  }

  /**
   * Keys of the same shape do not collide: two different UUIDs of the same
   * length (canonical UUID strings are all 36 characters) give different keys.
   */
  lemma GenerateFileNameInjective(a: Option<string>, b: Option<string>, u: Uuid, v: Uuid)
    requires |u.text| == |v.text| && u != v
    ensures GenerateFileName(a, u) != GenerateFileName(b, v)
  {
    assert GenerateFileName(a, u)[|KeyPrefix|..|KeyPrefix| + |u.text|]
        != GenerateFileName(b, v)[|KeyPrefix|..|KeyPrefix| + |v.text|];
  }

  /** `https://<bucket>.s3.<region>.amazonaws.com/<fileName>`. */
  function ImageUrl(bucket: string, region: string, fileName: string): (r: string)
    ensures |r| >= |fileName| && r[|r| - |fileName|..] == fileName
    ensures |r| >= 8 && r[..8] == "https://"
  {
    "https://" + bucket + ".s3." + region + ".amazonaws.com/" + fileName
  }

  /** Within one bucket and region, the URL determines the object key. */
  lemma {:induction false} ImageUrlInjective(bucket: string, region: string, f: string, g: string)
    requires ImageUrl(bucket, region, f) == ImageUrl(bucket, region, g)
    ensures f == g
  {
    var prefix := "https://" + bucket + ".s3." + region + ".amazonaws.com/";
    assert ImageUrl(bucket, region, f) == prefix + f;
    assert ImageUrl(bucket, region, g) == prefix + g;
    assert f == (prefix + f)[|prefix|..];
    assert g == (prefix + g)[|prefix|..];
  }

  /**
   * `upload`: names the object, sends it to the bucket and returns its URL.
   * `stored` is whether the bucket accepted it; on failure there is no URL.
   * The request is recorded whether or not it succeeds, including when reading
   * the file's input stream throws before `putObject` runs.
   */
  method Upload(store: Store, originalFileName: Option<string>, objectId: Uuid,
                bucket: string, region: string, stored: bool) returns (r: Option<string>)
    modifies store`calls
    ensures store.calls == old(store.calls) + [PutObject(GenerateFileName(originalFileName, objectId))]
    ensures r == if stored then Some(ImageUrl(bucket, region, GenerateFileName(originalFileName, objectId))) else None
  {
    var fileName := GenerateFileName(originalFileName, objectId);
    store.calls := store.calls + [PutObject(fileName)];
    if !stored {
      return None;
    }
    return Some(ImageUrl(bucket, region, fileName));
  }
}
