/**
 * `defaultHandler`: serves an allow-listed file from the public directory.
 * The page `/classic.html` is a template whose `{time}` slots are filled with
 * the current time before it is sent; every other file is sent as it is.
 * The file system and the clock are parameters: the directory maps each
 * request path to the file stored for it, and `now` is the rendered time.
 */
module StaticFiles {
  import opened Wrappers
  import opened JavaText
  import opened Template
  import opened ResponseWriter
  import opened ResponseReader

  /** A file under the public directory: its probed content type (`None` for null) and its bytes. */
  datatype File = File(mime: Option<string>, bytes: string)

  type PublicDir = map<string, File>

  const ClassicPage: string := "/classic.html"
  const TimeSlot: string := "{time}"

  /** The classic page's body: the template with the time in every slot. */
  function ClassicBody(template: string, now: string): string {
    ReplaceAll(template, TimeSlot, now)
  }

  /**
   * The bytes `defaultHandler` writes for `path`. `None` when the file cannot
   * be read: the I/O exception is raised before anything is written.
   */
  function DefaultResponse(path: string, dir: PublicDir, now: string): (r: Option<string>)
    ensures r.None? <==> path !in dir
  {
    if path !in dir then None
    else
      var file := dir[path];
      if StartsWith(path, ClassicPage) then
        var content := ClassicBody(file.bytes, now);
        Some(OkHead(file.mime, |content|) + content)
      else
        Some(OkHead(file.mime, |file.bytes|) + file.bytes)
  }

  lemma TimeSlotLeadUnique()
    ensures LeadUnique(TimeSlot)
  {
    assert TimeSlot == ['{', 't', 'i', 'm', 'e', '}'];
  }

  /**
   * Every `{time}` slot of the template is filled with the time and nothing
   * else changes: cut the template at its slots and the body is the same
   * pieces joined by the time instead.
   */
  lemma ClassicFillsEverySlot(template: string, now: string)
    ensures Join(Cut(template, TimeSlot), TimeSlot) == template
    ensures forall k :: 0 <= k < |Cut(template, TimeSlot)| ==> !Occurs(TimeSlot, Cut(template, TimeSlot)[k])
    ensures ClassicBody(template, now) == Join(Cut(template, TimeSlot), now)
  {
    TimeSlotLeadUnique();
    CutJoins(template, TimeSlot);
    CutPiecesFree(template, TimeSlot);
    ReplaceAllCut(template, TimeSlot, now);
  }

  /** A template without a slot is sent unchanged. */
  lemma ClassicWithoutSlot(template: string, now: string)
    requires !Occurs(TimeSlot, template)
    ensures ClassicBody(template, now) == template
  {
    ReplaceAbsent(template, TimeSlot, now);
  }

  /**
   * The classic page is sent with the filled-in template as its body, and its
   * `Content-Length` is the length of that body (not of the template).
   */
  lemma ClassicResponseFramed(path: string, dir: PublicDir, now: string)
    requires path in dir && StartsWith(path, ClassicPage)
    requires '\r' !in MimeText(dir[path].mime)
    ensures Read(DefaultResponse(path, dir, now).value).Some?
    ensures Read(DefaultResponse(path, dir, now).value).value.body == ClassicBody(dir[path].bytes, now)
    ensures WellFramed(Read(DefaultResponse(path, dir, now).value).value)
  {
    OkReads(dir[path].mime, ClassicBody(dir[path].bytes, now));
  }

  /** Any other file is sent byte for byte, declaring its size as `Content-Length`. */
  lemma FileResponseFramed(path: string, dir: PublicDir, now: string)
    requires path in dir && !StartsWith(path, ClassicPage)
    requires '\r' !in MimeText(dir[path].mime)
    ensures Read(DefaultResponse(path, dir, now).value).Some?
    ensures Read(DefaultResponse(path, dir, now).value).value.body == dir[path].bytes
    ensures WellFramed(Read(DefaultResponse(path, dir, now).value).value)
  {
    OkReads(dir[path].mime, dir[path].bytes);
  }
}
