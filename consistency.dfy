/**
 * How the four parts of the system relate: the three spellings of the
 * extension rule agree; the browser's two overlays differ by a reflection;
 * and three places where the parts do not fit together, stated as facts
 * about the model: the recogniser's sentinel name, its folder, and the two
 * ways of measuring a name's length.
 */
module Consistency {
  import opened Wrappers
  import opened Text
  import opened Geometry
  import Server
  import ClientApp
  import ClientMain
  import Recognizer

  /** A lower-cased name that ends with "." and a dot-free `x` has `x` after its last '.', up to case. */
  lemma {:induction false} DotExtIsAfterLastDot(f: string, x: string)
    requires '.' !in x && EndsWith(ToLower(f), "." + x)
    ensures '.' in f && ToLower(AfterLastDot(f)) == x
  {
    var lower := ToLower(f);
    var d := |f| - |x| - 1;
    assert lower[d] == ("." + x)[0] == '.';
    LowerCharIsDot(f[d]);
    forall k | d < k < |f| ensures f[k] != '.' {
      assert lower[k] == ("." + x)[k - d];
      LowerCharIsDot(f[k]);
    }
    assert LastIndex(f, '.') == d;
    var r := f[d + 1..];
    assert AfterLastDot(f) == r;
    forall k | 0 <= k < |x| ensures ToLower(r)[k] == x[k] {
      assert lower[d + 1 + k] == ("." + x)[k + 1];
    }
  }

  /** A name with a '.' ends, once lower-cased, with "." and its lower-cased text after the last '.'. */
  lemma {:induction false} AfterLastDotIsDotExt(f: string)
    requires '.' in f
    ensures EndsWith(ToLower(f), "." + ToLower(AfterLastDot(f)))
  {
    var lower, r := ToLower(f), AfterLastDot(f);
    var x, d := ToLower(r), |f| - |r| - 1;
    forall k | 0 <= k < |x| + 1 ensures lower[d + k] == ("." + x)[k] {
      if k == 0 {
        LowerCharIsDot(f[d]);
      } else {
        assert ("." + x)[k] == x[k - 1] == LowerChar(r[k - 1]);
      }
    }
    assert lower[d..] == "." + x;
  }

  /** The server's extension set is the client's and the recogniser's list without the leading dots. */
  lemma ExtensionListsAgree()
    ensures forall x :: x in Server.AllowedExtensions ==> "." + x in ClientApp.AllowedExtensions
    ensures forall e :: e in ClientApp.AllowedExtensions ==>
              |e| > 0 && e[0] == '.' && '.' !in e[1..] && e[1..] in Server.AllowedExtensions
    ensures ClientApp.AllowedExtensions == Recognizer.AllowedExtensions
  {
    assert "." + "png" == ".png" && "." + "jpg" == ".jpg" && "." + "jpeg" == ".jpeg";
    assert "." + "bmp" == ".bmp" && "." + "tiff" == ".tiff" && "." + "webp" == ".webp";
    assert ".png"[1..] == "png" && ".jpg"[1..] == "jpg" && ".jpeg"[1..] == "jpeg";
    assert ".bmp"[1..] == "bmp" && ".tiff"[1..] == "tiff" && ".webp"[1..] == "webp";
  }

  /** The server's `allowed_file`, the upload form's extension test and the recogniser's folder filter accept the same names. */
  lemma ExtensionRulesAgree(f: string)
    ensures Server.AllowedFile(f) <==> ClientApp.HasValidExtension(f)
    ensures ClientApp.HasValidExtension(f) <==> Recognizer.IsFaceImage(f)
  {
    ExtensionListsAgree();
    if Server.AllowedFile(f) {
      ServerExtensionPassesClient(f);
    }
    if ClientApp.HasValidExtension(f) {
      ClientExtensionPassesServer(f);
    }
  }

  lemma ServerExtensionPassesClient(f: string)
    requires Server.AllowedFile(f)
    ensures ClientApp.HasValidExtension(f)
  {
    ExtensionListsAgree();
    var e := "." + ToLower(AfterLastDot(f));
    AfterLastDotIsDotExt(f);
    assert e in ClientApp.AllowedExtensions && EndsWith(ToLower(f), e);
  }

  lemma ClientExtensionPassesServer(f: string)
    requires ClientApp.HasValidExtension(f)
    ensures Server.AllowedFile(f)
  {
    ExtensionListsAgree();
    var e :| e in ClientApp.AllowedExtensions && EndsWith(ToLower(f), e);
    assert e == "." + e[1..];
    DotExtIsAfterLastDot(f, e[1..]);
  }

  /** The browser's main overlay is the alternative overlay's outline reflected across the canvas. */
  lemma OverlaysDifferByReflection(width: int, b: Box)
    ensures ClientApp.MirroredRect(width, b) == FlipRect(width, ClientMain.OutlineRect(b))
    ensures FlipRect(width, ClientApp.MirroredRect(width, b)) == ClientMain.OutlineRect(b)
  {
    FlipRectInvolution(width, ClientMain.OutlineRect(b));
  }

  /** The recogniser's name for an unmatched face is not the client's, so it gets the colours of a recognised one. */
  lemma UnmatchedFaceLooksRecognised()
    ensures Recognizer.UnknownName != ClientApp.UnknownName
    ensures ClientApp.PaletteFor(Recognizer.UnknownName).stroke == ClientApp.SuccessColour
  {}

  /** Faces are uploaded to one folder and the recogniser loads known faces from another. */
  lemma UploadsAreNotKnownFaces()
    ensures Server.UploadFolder != Recognizer.KnownFacesFolder
  {}

  /**
   * A name of 26 to 50 characters outside the Basic Multilingual Plane passes
   * the server's length checks, which count code points, and fails the upload
   * form's, which count UTF-16 code units.
   */
  lemma AstralNamesSplitTheLengthRules(name: string, picked: ClientApp.PickedFile, file: Server.UploadedFile)
    requires 26 <= |name| <= 50
    requires forall k :: 0 <= k < |name| ==> name[k] > '\U{FFFF}'
    requires picked.mimeType in ClientApp.AllowedTypes && ClientApp.HasValidExtension(picked.name)
    requires ClientApp.MinFileSize <= picked.size <= ClientApp.MaxFileSize
    requires Server.AllowedFile(file.filename) && Server.MinFileSize <= file.size <= Server.MaxFileSize
    ensures ClientApp.ValidateUpload(name, Some(picked)) == Err(ClientApp.NameTooLong)
    ensures Server.ValidateUpload(Server.UploadRequest(Some(file), Some(name))).Ok?
  {
    AstralNameIsUntouched(name);
    assert file.filename != "";
  }

  /** Neither trimming changes a non-empty name made only of characters outside the Basic Multilingual Plane. */
  lemma AstralNameIsUntouched(name: string)
    requires name != []
    requires forall k :: 0 <= k < |name| ==> name[k] > '\U{FFFF}'
    ensures JsTrim(name) == name && PyStrip(name) == name
    ensures Utf16Length(name) == 2 * |name|
  {
    AstralIsNotSpace(name[0]);
    AstralIsNotSpace(name[|name| - 1]);
    assert TrimStart(name, IsJsSpace) == name;
    assert TrimStart(name, IsPySpace) == name;
  }

  lemma AstralIsNotSpace(c: char)
    requires c > '\U{FFFF}'
    ensures !IsJsSpace(c) && !IsPySpace(c)
  {}
}
