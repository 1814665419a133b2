/** The ETL's quick header check: are the first eight bytes of a file those of
    a NetCDF classic file or of an HDF5 (NetCDF4) file? */
module MagicBytes {
  import opened Wrappers

  /** How many bytes the check reads from the start of the file. */
  const HeaderLength: nat := 8

  /** "CDF": the start of every NetCDF classic file (followed by a version byte). */
  const ClassicPrefix: seq<bv8> := [0x43, 0x44, 0x46]

  /** The eight-byte HDF5 format signature, "\x89HDF\r\n\x1a\n". */
  const Hdf5Signature: seq<bv8> := [0x89, 0x48, 0x44, 0x46, 0x0D, 0x0A, 0x1A, 0x0A]

  /** `f.read(8)`: at most the first eight bytes. */
  function ReadHead(contents: seq<bv8>): (head: seq<bv8>)
    ensures head <= contents
    ensures |head| == if |contents| < HeaderLength then |contents| else HeaderLength
  {
    if |contents| <= HeaderLength then contents else contents[..HeaderLength]
  }

  /** The file itself starts with 'C', 'D', 'F'. */
  predicate StartsClassic(contents: seq<bv8>) {
    |contents| >= 3 && contents[0] == 0x43 && contents[1] == 0x44 && contents[2] == 0x46
  }

  /** The file itself starts with the HDF5 signature. */
  predicate StartsHdf5(contents: seq<bv8>) {
    |contents| >= 8 && forall i :: 0 <= i < 8 ==> contents[i] == Hdf5Signature[i]
  }

  /** `_is_probably_netcdf`. `file` is the content of the file, or `None` when
      opening or reading it raised; the check then answers false. The check
      looks at the truncated head (prefix test on "CDF", equality with the
      signature); the contract states the verdict on the whole file. */
  function IsProbablyNetcdf(file: Option<seq<bv8>>): (r: bool)
    ensures r <==> file.Some? && (StartsClassic(file.value) || StartsHdf5(file.value))
  {
    match file
    case None => false
    case Some(contents) =>
      var head := ReadHead(contents);
      if ClassicPrefix <= head then true
      else if head == Hdf5Signature then true
      else false
  }

  /** The two signatures never both match: their first bytes differ. */
  lemma ClassicAndHdf5Exclusive(contents: seq<bv8>)
    ensures !(StartsClassic(contents) && StartsHdf5(contents))
  {
    if StartsHdf5(contents) {
      assert contents[0] == Hdf5Signature[0];
    }
  }

  /** Only the first eight bytes decide the verdict: bytes appended after them
      do not change it. */
  lemma OnlyHeaderMatters(contents: seq<bv8>, rest: seq<bv8>)
    requires |contents| >= HeaderLength
    ensures IsProbablyNetcdf(Some(contents + rest)) == IsProbablyNetcdf(Some(contents))
  {
    var whole := contents + rest;
    assert forall i :: 0 <= i < |contents| ==> whole[i] == contents[i];
  }

  /** A file shorter than eight bytes can only pass as NetCDF classic. */
  lemma ShortFileOnlyClassic(contents: seq<bv8>)
    requires |contents| < HeaderLength
    ensures IsProbablyNetcdf(Some(contents)) <==> StartsClassic(contents)
  {
  }
}
