/** The branch of `restore` that decides, from what the remote `find` printed,
    whether there is a backup to fetch. */
module Restore {

  import Listing

  /** How `restore(ts)` goes on after the lookup. */
  datatype Outcome =
    | NotFound(message: string)  // returned at once; nothing is fetched or loaded
    | Fetch(path: string)        // `scp` of this remote path, then `psql -f` of the copy

  /** The message `restore` returns when no backup is named `ts`. */
  function NotFoundMessage(ts: string): string {
    "Backup with name " + ts + " doesn't exist"
  }

  /** `restore(ts)` given the text `found` that `find ~/.backups -name ts`
      printed: the trimmed text is the path to fetch, and an empty one means
      there is no such backup. */
  function Restore(ts: string, found: string): (r: Outcome)
    ensures r.NotFound? <==> Listing.AllSpace(found)
    ensures r.NotFound? ==> r.message == NotFoundMessage(ts)
    ensures r.Fetch? ==> r.path != [] && !Listing.IsSpace(r.path[0]) && !Listing.IsSpace(r.path[|r.path| - 1])
    ensures r.Fetch? ==>
      exists i :: (0 <= i <= |found| - |r.path| && r.path == found[i..][..|r.path|] &&
                   Listing.AllSpace(found[..i]) && Listing.AllSpace(found[i..][|r.path|..]))
  {
    Listing.TrimSpec(found);
    var path := Listing.Trim(found);
    if |path| == 0 then NotFound(NotFoundMessage(ts)) else Fetch(path)
  }

  /** When `find` prints one path and its line feed, that path is fetched. */
  lemma RestoreFound(ts: string, path: string)
    requires path != [] && !Listing.IsSpace(path[0]) && !Listing.IsSpace(path[|path| - 1])
    ensures Restore(ts, path + "\n") == Fetch(path)
  {
    var s := path + "\n";
    assert Listing.TrimStart(s) == s;
    assert s[..|s| - 1] == path;
    assert Listing.TrimEnd(s) == Listing.TrimEnd(path);
    Listing.TrimKeeps(path);
  }
}
