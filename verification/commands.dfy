/** Command-line dispatch and the note paths built from a note name.

    The program's argument vector includes the executable's own name, so one
    argument means "no command". Dispatch chooses the action to perform; the
    actions themselves (running the editor, listing, removing a file, the
    search) are performed elsewhere. */
module Commands {
  import opened Paths

  /** The settings read from the configuration file. A key missing from the
      file yields the empty string. */
  datatype Config = Config(notesDirectory: string, editorCommand: string, configFilePath: string)

  /** What the program goes on to do. */
  datatype Action =
    | ShowHelp
    | ListNotes(notesDir: string)
    | EditConfig(editor: string, configFile: string)
    | CreateNote(editor: string, notePath: string)
    | SearchNotes(notesDir: string, term: string)
    | DeleteNote(notePath: string)

  /** The file `delete` removes: the notes directory joined with the name
      followed by ".md". */
  function DeletePath(notesDir: string, name: string): (r: string)
    ensures |r| >= |name| + 3 && r[|r| - |name| - 3..] == name + ".md"
    ensures !IsAbsolute(name) ==> |r| >= |notesDir| + |name| + 3 && r[..|notesDir|] == notesDir
  {
    var file := name + ".md";
    assert IsAbsolute(file) <==> IsAbsolute(name) by {
      assert |name| > 0 ==> file[0] == name[0];
    }
    JoinPath(notesDir, file)
  }

  /** The file `create_note` hands to the editor: the notes directory, a
      separator, the name and ".md", whatever the directory and the name are. */
  function CreateNotePath(notesDir: string, name: string): (r: string)
    ensures |r| == |notesDir| + 1 + |name| + 3
    ensures r[..|notesDir|] == notesDir && r[|notesDir|] == '/'
    ensures r[|notesDir| + 1..|r| - 3] == name && r[|r| - 3..] == ".md"
  {
    notesDir + "/" + name + ".md"
  }

  /** Creating and deleting a note address the same path when the notes
      directory is a non-empty path without a trailing separator and the name
      is relative. */
  lemma CreateAndDeleteAgree(notesDir: string, name: string)
    requires NeedsSeparator(notesDir) && !IsAbsolute(name)
    ensures CreateNotePath(notesDir, name) == DeletePath(notesDir, name)
  {
    var file := name + ".md";
    assert !IsAbsolute(file) by {
      assert |name| > 0 ==> file[0] == name[0];
    }
    assert notesDir + "/" + name + ".md" == notesDir + "/" + file;
  }

  /** With an empty notes directory (what a configuration without the key
      yields) the two disagree: the note is created at the filesystem root
      but deleted relative to the working directory. */
  lemma CreateAndDeleteDisagreeOnEmptyDirectory(name: string)
    requires !IsAbsolute(name)
    ensures CreateNotePath("", name) == "/" + name + ".md"
    ensures DeletePath("", name) == name + ".md"
    ensures CreateNotePath("", name) != DeletePath("", name)
  {
    var file := name + ".md";
    assert !IsAbsolute(file) by {
      assert |name| > 0 ==> file[0] == name[0];
    }
  }

  /** A single command word: "help", "list" and "config" name their
      commands; any other word is the name of a note to create. */
  function MatchSingletonCommand(arg: string, config: Config): (a: Action)
    ensures a.ShowHelp? <==> arg == "help"
    ensures a.ListNotes? <==> arg == "list"
    ensures a.EditConfig? <==> arg == "config"
    ensures a.CreateNote? <==> arg != "help" && arg != "list" && arg != "config"
    ensures !a.SearchNotes? && !a.DeleteNote?
    ensures a.ListNotes? ==> a.notesDir == config.notesDirectory
    ensures a.EditConfig? ==> a.editor == config.editorCommand && a.configFile == config.configFilePath
    ensures a.CreateNote? ==> a.editor == config.editorCommand && a.notePath == CreateNotePath(config.notesDirectory, arg)
  {
    match arg
    case "help" => ShowHelp
    case "list" => ListNotes(config.notesDirectory)
    case "config" => EditConfig(config.editorCommand, config.configFilePath)
    case _ => CreateNote(config.editorCommand, CreateNotePath(config.notesDirectory, arg))
  }

  /** A command word with one operand: only "search" and "delete" are
      recognised; anything else shows the help. The operand is passed on
      unmodified. */
  function MatchComplexCommand(args: seq<string>, config: Config): (a: Action)
    requires |args| >= 3
    ensures a.SearchNotes? <==> args[1] == "search"
    ensures a.DeleteNote? <==> args[1] == "delete"
    ensures a.ShowHelp? <==> args[1] != "search" && args[1] != "delete"
    ensures a.SearchNotes? ==> a.notesDir == config.notesDirectory && a.term == args[2]
    ensures a.DeleteNote? ==> a.notePath == DeletePath(config.notesDirectory, args[2])
  {
    match args[1]
    case "search" => SearchNotes(config.notesDirectory, args[2])
    case "delete" => DeleteNote(DeletePath(config.notesDirectory, args[2]))
    case _ => ShowHelp
  }

  /** Dispatch on the number of arguments (the executable's name included). */
  function Dispatch(args: seq<string>, config: Config): (a: Action)
    ensures (|args| < 2 || |args| > 3) ==> a == ShowHelp
    ensures a.ShowHelp? <==>
      || |args| < 2 || |args| > 3
      || (|args| == 2 && args[1] == "help")
      || (|args| == 3 && args[1] != "search" && args[1] != "delete")
    ensures a.ListNotes? <==> |args| == 2 && args[1] == "list"
    ensures a.EditConfig? <==> |args| == 2 && args[1] == "config"
    ensures a.CreateNote? <==> |args| == 2 && args[1] != "help" && args[1] != "list" && args[1] != "config"
    ensures a.SearchNotes? <==> |args| == 3 && args[1] == "search"
    ensures a.DeleteNote? <==> |args| == 3 && args[1] == "delete"
    ensures a.ListNotes? ==> a.notesDir == config.notesDirectory
    ensures a.EditConfig? ==> a.editor == config.editorCommand && a.configFile == config.configFilePath
    ensures a.CreateNote? ==> a.editor == config.editorCommand && a.notePath == CreateNotePath(config.notesDirectory, args[1])
    ensures a.SearchNotes? ==> a.notesDir == config.notesDirectory && a.term == args[2]
    ensures a.DeleteNote? ==> a.notePath == DeletePath(config.notesDirectory, args[2])
  {
    match |args|
    case 1 => ShowHelp
    case 2 => MatchSingletonCommand(args[1], config)
    case 3 => MatchComplexCommand(args, config)
    case _ => ShowHelp
  }

  /** The command words are only recognised in their own arity: a bare
      "search" or "delete" creates a note of that name, and "list" or
      "config" with an operand shows the help. */
  lemma CommandWordsNeedTheirArity(config: Config, operand: string)
    ensures Dispatch(["note", "search"], config) == CreateNote(config.editorCommand, CreateNotePath(config.notesDirectory, "search"))
    ensures Dispatch(["note", "delete"], config) == CreateNote(config.editorCommand, CreateNotePath(config.notesDirectory, "delete"))
    ensures Dispatch(["note", "list", operand], config) == ShowHelp
    ensures Dispatch(["note", "config", operand], config) == ShowHelp
  {
  }
}
