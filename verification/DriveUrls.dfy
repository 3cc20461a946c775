/** Paths and URLs of the OneDrive client: the path of a key, and the URL of a request, which
    is printed into a fixed buffer. */
module DriveUrls {

  const PATH_MAX: nat := 4096
  const MAX_URL_LEN: nat := 1024

  const MY_DRIVE: string := "https://graph.microsoft.com/v1.0/me/drive"
  const APP_ROOT: string := MY_DRIVE + "/special/approot"
  const KEYS_DIR: string := "/KeyValues"

  const PLAIN: string := ""
  const REMOVE: string := ":"
  const CONTENT: string := ":/content"
  const CHILDREN: string := ":/children"
  const SESSION: string := ":/createUploadSession"

  /** snprintf(path, PATH_MAX, "%s/%s", KEYS_DIR, key), which may cut the key. */
  function PathOf(key: string): string {
    var path := KEYS_DIR + "/" + key;
    if |path| < PATH_MAX then path else path[..PATH_MAX - 1]
  }

  /** sprintf(url, "%s:%s<suffix>", APP_ROOT, path). */
  function Url(path: string, suffix: string): string {
    APP_ROOT + ":" + path + suffix
  }

  /** Is there room for the URL and its terminator? */
  predicate UrlFits(path: string, suffix: string) {
    |Url(path, suffix)| < MAX_URL_LEN
  }

  /** The longest keys of the requests: the file's length and contents, its removal, its
      upload, and the session of a large upload. */
  const LONGEST_READ: nat := 954
  const LONGEST_REMOVE: nat := 953
  const LONGEST_UPLOAD: nat := 945
  const LONGEST_SESSION: nat := 933

  /** A request's URL fits its buffer exactly for keys up to a length. */
  lemma UrlFitsIff(key: string)
    ensures UrlFits(PathOf(key), PLAIN) <==> |key| <= LONGEST_READ
    ensures UrlFits(PathOf(key), REMOVE) <==> |key| <= LONGEST_REMOVE
    ensures UrlFits(PathOf(key), CONTENT) <==> |key| <= LONGEST_UPLOAD
    ensures UrlFits(PathOf(key), SESSION) <==> |key| <= LONGEST_SESSION
  {
    RootLength();
    assert |KEYS_DIR + "/" + key| == 11 + |key|;
    assert |PLAIN| == 0 && |REMOVE| == 1 && |CONTENT| == 9 && |SESSION| == 21;
  }

  lemma RootLength()
    ensures |APP_ROOT| == 57
  {
  }

  // ---- what a URL asks for ----

  /** The text in front of a query or a fragment, which is all of a path that a URL names. */
  function Front(text: string): (r: string)
    ensures r <= text
  {
    if text == "" || text[0] == '?' || text[0] == '#' then "" else [text[0]] + Front(text[1..])
  }

  predicate NoCut(text: string) {
    '?' !in text && '#' !in text
  }

  /** The path that the requests of a key ask for. */
  function AskedPath(key: string): string {
    Front(PathOf(key))
  }

  lemma {:induction false} FrontConcat(a: string, b: string)
    ensures Front(a + b) == if NoCut(a) then a + Front(b) else Front(a)
  {
    if a == "" {
      assert a + b == b;
    } else {
      assert (a + b)[1..] == a[1..] + b;
      FrontConcat(a[1..], b);
    }
  }

  lemma FrontOfPlain(a: string)
    ensures Front(a) == a <==> NoCut(a)
  {
    FrontConcat(a, "");
    assert a + "" == a;
    FrontIsPlain(a);
  }

  lemma {:induction false} FrontIsPlain(a: string)
    ensures NoCut(Front(a))
  {
    if a != "" { FrontIsPlain(a[1..]); }
  }

  lemma NoCutConcat(a: string, b: string)
    ensures NoCut(a + b) <==> NoCut(a) && NoCut(b)
  {
  }

  lemma DriveIsPlain()
    ensures NoCut(MY_DRIVE)
  {
  }

  lemma RootIsPlain()
    ensures NoCut(APP_ROOT + ":") && NoCut(KEYS_DIR + "/")
  {
    DriveIsPlain();
    hide NoCut;
    PartsArePlain();
    NoCutConcat(MY_DRIVE, "/special/approot");
    NoCutConcat(APP_ROOT, ":");
  }

  lemma PartsArePlain()
    ensures NoCut("/special/approot") && NoCut(":") && NoCut(KEYS_DIR + "/")
  {
  }

  lemma SuffixIsPlain(suffix: string)
    requires suffix in {PLAIN, REMOVE, CONTENT, CHILDREN, SESSION}
    ensures NoCut(suffix)
  {
    assert '?' !in SESSION && '#' !in SESSION;
  }

  /** What a URL asks for is the asked path in the application's folder, with the suffix that
      says what is done there only if nothing in the path cuts it off. */
  lemma UrlAsksFor(path: string, suffix: string)
    requires suffix in {PLAIN, REMOVE, CONTENT, CHILDREN, SESSION}
    ensures Front(Url(path, suffix)) == APP_ROOT + ":" + Front(path) + if NoCut(path) then suffix else ""
  {
    hide Front, NoCut;
    var root := APP_ROOT + ":";
    RootIsPlain();
    SuffixIsPlain(suffix);
    assert Url(path, suffix) == root + (path + suffix);
    FrontConcat(root, path + suffix);
    FrontConcat(path, suffix);
    FrontOfPlain(suffix);
    FrontOfPlain(path);
  }

  /** A request asks for what was meant exactly for keys with no question mark and no hash. */
  lemma ReachesIff(key: string, suffix: string)
    requires suffix in {PLAIN, REMOVE, CONTENT, CHILDREN, SESSION} && |key| <= LONGEST_READ
    ensures Front(Url(PathOf(key), suffix)) == Url(PathOf(key), suffix) <==> NoCut(key)
  {
    hide NoCut, Front;
    RootIsPlain();
    SuffixIsPlain(suffix);
    PathOfFitting(key);
    NoCutConcat(KEYS_DIR + "/", key);
    NoCutConcat(APP_ROOT + ":", PathOf(key));
    NoCutConcat(APP_ROOT + ":" + PathOf(key), suffix);
    FrontOfPlain(Url(PathOf(key), suffix));
  }

  lemma PathOfFitting(key: string)
    requires |key| <= LONGEST_READ
    ensures PathOf(key) == KEYS_DIR + "/" + key
  {
    assert |KEYS_DIR + "/" + key| == 11 + |key|;
  }

  /** Keys that fit ask for the same path exactly when they agree in front of the cut. */
  lemma SamePathIff(a: string, b: string)
    requires |a| <= LONGEST_READ && |b| <= LONGEST_READ
    ensures AskedPath(a) == AskedPath(b) <==> Front(a) == Front(b)
  {
    hide NoCut, Front;
    var dir := KEYS_DIR + "/";
    RootIsPlain();
    PathOfFitting(a);
    PathOfFitting(b);
    FrontConcat(dir, a);
    FrontConcat(dir, b);
    assert (dir + Front(a))[|dir|..] == Front(a) && (dir + Front(b))[|dir|..] == Front(b);
  }

  /** What stands behind a hash or a question mark makes no difference. */
  lemma TailIsCutOff(key: string, mark: char, tail: string)
    requires mark in {'?', '#'} && NoCut(key) && |key| + 1 + |tail| <= LONGEST_READ
    ensures AskedPath(key + [mark] + tail) == AskedPath(key)
  {
    FrontConcat(key, [mark] + tail);
    assert key + [mark] + tail == key + ([mark] + tail);
    FrontOfPlain(key);
    SamePathIff(key + [mark] + tail, key);
  }

  // ---- dirname ----

  function WithoutSlashes(path: string): (r: string)
    ensures |r| <= |path|
  {
    if path != "" && path[|path| - 1] == '/' then WithoutSlashes(path[..|path| - 1]) else path
  }

  function WithoutName(path: string): (r: string)
    ensures |r| <= |path| && (path != "" && path[|path| - 1] != '/' ==> |r| < |path|)
  {
    if path != "" && path[|path| - 1] != '/' then WithoutName(path[..|path| - 1]) else path
  }

  /** dirname of a path that starts with one slash. */
  function Dirname(path: string): (r: string)
    ensures |r| <= |path| || r == "/"
  {
    var r := WithoutSlashes(WithoutName(WithoutSlashes(path)));
    if r == "" then "/" else r
  }

  /** The folder's URL of a large upload: the folder of the file's folder, where the latter
      is made. */
  predicate FolderUrlFits(path: string) {
    var dir := Dirname(Dirname(path));
    if dir == "/" then |APP_ROOT + "/children"| < MAX_URL_LEN else UrlFits(dir, CHILDREN)
  }

  /** The folder's URL fits wherever the session's does. */
  lemma FolderFitsFirst(path: string)
    ensures UrlFits(path, SESSION) ==> FolderUrlFits(path)
  {
    hide WithoutSlashes, WithoutName;
    RootLength();
    assert |SESSION| == 21 && |CHILDREN| == 10 && |APP_ROOT + "/children"| == 66;
  }

  /** The folder of a plain key's file is made in the application's folder. */
  lemma FolderOfPlainKey(key: string)
    requires key != "" && '/' !in key && |key| <= LONGEST_READ
    ensures Dirname(PathOf(key)) == KEYS_DIR && Dirname(Dirname(PathOf(key))) == "/"
  {
    hide WithoutName;
    var dir, path := KEYS_DIR + "/", PathOf(key);
    PathOfFitting(key);
    assert path[|path| - 1] == key[|key| - 1] && key[|key| - 1] in key;
    assert WithoutSlashes(path) == path;
    NameIsDropped(dir, key);
    assert |dir| == 11 && dir[10] == '/' && dir[..10] == KEYS_DIR && KEYS_DIR[9] == 's';
    assert WithoutSlashes(dir) == WithoutSlashes(KEYS_DIR) == KEYS_DIR;
    assert KEYS_DIR == "/" + "KeyValues";
    NameIsDropped("/", "KeyValues");
    assert WithoutSlashes("/") == WithoutSlashes("");
  }

  lemma {:induction false} NameIsDropped(front: string, name: string)
    requires front != "" && front[|front| - 1] == '/' && '/' !in name
    ensures WithoutName(front + name) == front
  {
    if name == "" {
      assert front + name == front;
    } else {
      var s, shorter := front + name, name[..|name| - 1];
      assert s[|s| - 1] == name[|name| - 1] && name[|name| - 1] in name;
      assert s[..|s| - 1] == front + shorter;
      NameIsDropped(front, shorter);
    }
  }
}
