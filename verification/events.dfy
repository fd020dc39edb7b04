/** The events the file-system watcher library delivers, after its own
    short debounce (the library's `DebouncedEvent`). The library itself is
    not part of this model; only the shape of its events is. */
module Notify {
  import opened Wrappers

  type Path = string

  datatype DebouncedEvent =
    | NoticeWrite(path: Path)
    | NoticeRemove(path: Path)
    | Create(path: Path)
    | Write(path: Path)
    | Chmod(path: Path)
    | Remove(path: Path)
    | Rename(path: Path, target: Path)
    | Rescan
    | Error(errorPath: Option<Path>)
}

/** How the runner classifies watcher events (src/events.rs). */
module Events {
  import opened Wrappers
  import opened Notify

  datatype WatchEventType = Touched | Changed | Error | Ignore

  /** The path an event is about: the source path for a rename, nothing for
      a rescan or a watcher error. */
  function GetFile(e: DebouncedEvent): (r: Option<Path>)
    ensures r.None? <==> e.Rescan? || e.Error?
    ensures r.Some? ==> r.value == e.path
  {
    match e
    case NoticeWrite(b) => Some(b)
    case NoticeRemove(b) => Some(b)
    case Create(b) => Some(b)
    case Write(b) => Some(b)
    case Chmod(b) => Some(b)
    case Remove(b) => Some(b)
    case Rename(b, _) => Some(b)
    case Error(_) => None
    case Rescan => None
  }

  /** The classification of a delivered event. A permission change and a
      creation count as touching a path; a removal, a rename and a write
      change it; the library's advance notices, a rescan and an error
      event are ignored. A delivered event is never classified `Error`. */
  function Classify(e: DebouncedEvent): (t: WatchEventType)
    ensures t != WatchEventType.Error
    ensures t == Touched <==> e.Chmod? || e.Create?
    ensures t == Changed <==> e.Remove? || e.Rename? || e.Write?
    ensures t == Ignore <==> e.NoticeRemove? || e.NoticeWrite? || e.Rescan? || e.Error?
  {
    match e
    case Chmod(_) => Touched
    case Create(_) => Touched
    case Remove(_) => Changed
    case Rename(_, _) => Changed
    case Write(_) => Changed
    case NoticeRemove(_) => Ignore
    case NoticeWrite(_) => Ignore
    case Rescan => Ignore
    case Error(_) => Ignore
  }

  /** Every event that is not ignored is about a path; an event without a
      path is always ignored. */
  lemma ClassifiedEventsHaveAPath(e: DebouncedEvent)
    ensures Classify(e) != Ignore ==> GetFile(e).Some?
    ensures GetFile(e).None? ==> Classify(e) == Ignore
  {
  }
}
