/** The quiz generator dialog (client/src/components/quiz/QuizGenerator.tsx):
    its input guards, the response-shape check and the form reset. */
module QuizGeneratorPanel {
  import opened Wrappers
  import opened Text
  import opened Json

  datatype GeneratorType = PromptType | ImageType | PdfType

  /** What the dialog knows of a chosen file. */
  datatype FileInfo = FileInfo(name: string, mimeType: string, size: nat)

  /** 20 MB. */
  const MaxFileSize: nat := 20 * 1024 * 1024

  /** `!isNaN(n) && !(n < 1) && !(n > 50)` for the number `Number(text)`
      (None for NaN). */
  predicate CountAccepted(n: Option<real>) {
    n.Some? && 1.0 <= n.value <= 50.0
  }

  /** The count guard: NaN is refused, the bounds are inclusive, and
      fractional counts inside them pass. */
  lemma CountAcceptedCases()
    ensures !CountAccepted(None)
    ensures CountAccepted(Some(1.0)) && CountAccepted(Some(50.0)) && CountAccepted(Some(2.5))
    ensures !CountAccepted(Some(0.5)) && !CountAccepted(Some(50.5))
    ensures CountAccepted(NumberOfText("5")) && !CountAccepted(NumberOfText(""))
  {
    assert AllDigits("5");
    assert DecimalValue("5") == 5;
  }

  /** The count field's text as `Number` reads it: "2.5" and "1e1" pass
      the guard, "-5" does not. */
  lemma CountTextCases(fraction: string, exponent: string, negative: string)
    requires fraction == "2" + "." + "5" && exponent == "1" + "e" + "1" && negative == "-" + "5"
    ensures CountAccepted(NumberOfText(fraction)) && CountAccepted(NumberOfText(exponent))
    ensures !CountAccepted(NumberOfText(negative))
  {
    NumberOfFractionExample(fraction);
    NumberOfExponentExample(exponent);
    NumberOfNegativeExample(negative);
  }

  datatype FileVerdict = FileTooLarge | NotAnImage | NotAPdf | FileKept

  /** The checks of `handleFileSelect`, in order. */
  function CheckFile(t: Option<GeneratorType>, f: FileInfo): (v: FileVerdict)
    ensures v == FileTooLarge <==> f.size > MaxFileSize
    ensures v == FileKept <==>
      f.size <= MaxFileSize
      && (t == Some(ImageType) ==> StartsWith(f.mimeType, "image/"))
      && (t == Some(PdfType) ==> f.mimeType == "application/pdf")
  {
    if f.size > MaxFileSize then FileTooLarge
    else if t == Some(ImageType) && !StartsWith(f.mimeType, "image/") then NotAnImage
    else if t == Some(PdfType) && f.mimeType != "application/pdf" then NotAPdf
    else FileKept
  }

  /** `!data.data || !Array.isArray(data.data)` refuses the response. */
  predicate ResponseAccepted(body: JsonValue) {
    body != JNull && Truthy(Get(body, "data")) && IsArray(Get(body, "data"))
  }

  lemma ResponseAcceptedIffArray(body: JsonValue)
    ensures ResponseAccepted(body) <==> body != JNull && Get(body, "data").Some? && Get(body, "data").value.JArr?
  {
  }

  /** How a generate click ends. `Generated` hands the response to the
      page; `Failed` is a toast after the request (HTTP error, bad shape or
      a `null` body, which throws on `data.data`). */
  datatype GenerateResult = NeedPrompt | NeedFile | BadCount | Failed | Generated(quiz: JsonValue)

  class GeneratorForm {
    var open: bool
    var generatorType: Option<GeneratorType>
    var prompt: string
    var numQuestions: string
    var isLoading: bool
    var uploadedFile: Option<FileInfo>

    constructor()
      ensures !open && generatorType == None && prompt == "" && numQuestions == "5"
      ensures !isLoading && uploadedFile == None
    {
      open := false;
      generatorType := None;
      prompt := "";
      numQuestions := "5";
      isLoading := false;
      uploadedFile := None;
    }

    /** `resetForm`. */
    method ResetForm()
      modifies this
      ensures generatorType == None && prompt == "" && numQuestions == "5" && uploadedFile == None
      ensures open == old(open) && isLoading == old(isLoading)
    {
      generatorType := None;
      prompt := "";
      numQuestions := "5";
      uploadedFile := None;
    }

    /** `handleClose`: the dialog closes and the form is reset. */
    method Close()
      modifies this
      ensures !open && generatorType == None && prompt == "" && numQuestions == "5" && uploadedFile == None
      ensures isLoading == old(isLoading)
    {
      open := false;
      ResetForm();
    }

    /** `handleFileSelect`: the file is kept only if it passes every check. */
    method SelectFile(f: FileInfo) returns (v: FileVerdict)
      modifies this
      ensures v == CheckFile(generatorType, f)
      ensures uploadedFile == if v == FileKept then Some(f) else old(uploadedFile)
      ensures open == old(open) && generatorType == old(generatorType) && prompt == old(prompt)
      ensures numQuestions == old(numQuestions) && isLoading == old(isLoading)
    {
      v := CheckFile(generatorType, f);
      if v == FileKept {
        uploadedFile := Some(f);
      }
    }

    /** `generateQuizFromPrompt`: a blank prompt or a bad count is refused
        before any request (and before the loading flag is set);
        `response` is the parsed body of a successful
        request (None when the request failed). A good response closes the
        dialog and resets the form. */
    method GenerateFromPrompt(response: Option<JsonValue>) returns (r: GenerateResult)
      modifies this
      ensures r == NeedPrompt <==> IsBlank(old(prompt))
      ensures r == BadCount <==> !IsBlank(old(prompt)) && !CountAccepted(NumberOfText(old(numQuestions)))
      ensures r.Generated? <==>
        !IsBlank(old(prompt)) && CountAccepted(NumberOfText(old(numQuestions)))
        && response.Some? && ResponseAccepted(response.value)
      ensures r.Generated? ==> Some(r.quiz) == response
      ensures r.Generated? ==>
        !open && generatorType == None && prompt == "" && numQuestions == "5" && uploadedFile == None
      ensures !r.Generated? ==>
        open == old(open) && generatorType == old(generatorType) && prompt == old(prompt)
        && numQuestions == old(numQuestions) && uploadedFile == old(uploadedFile)
      ensures r != NeedFile
      ensures r in {NeedPrompt, BadCount} ==> isLoading == old(isLoading)
      ensures r !in {NeedPrompt, BadCount} ==> !isLoading
    {
      if IsBlank(prompt) {
        return NeedPrompt;
      }
      if !CountAccepted(NumberOfText(numQuestions)) {
        return BadCount;
      }
      isLoading := true;
      if response.None? || !ResponseAccepted(response.value) {
        r := Failed;
      } else {
        r := Generated(response.value);
        open := false;
        ResetForm();
      }
      isLoading := false;
    }

    /** `generateQuizFromFile`: the same, with a missing file refused first. */
    method GenerateFromFile(response: Option<JsonValue>) returns (r: GenerateResult)
      modifies this
      ensures r == NeedFile <==> old(uploadedFile).None?
      ensures r == BadCount <==> old(uploadedFile).Some? && !CountAccepted(NumberOfText(old(numQuestions)))
      ensures r.Generated? <==>
        old(uploadedFile).Some? && CountAccepted(NumberOfText(old(numQuestions)))
        && response.Some? && ResponseAccepted(response.value)
      ensures r.Generated? ==> Some(r.quiz) == response
      ensures r.Generated? ==>
        !open && generatorType == None && prompt == "" && numQuestions == "5" && uploadedFile == None
      ensures !r.Generated? ==>
        open == old(open) && generatorType == old(generatorType) && prompt == old(prompt)
        && numQuestions == old(numQuestions) && uploadedFile == old(uploadedFile)
      ensures r != NeedPrompt
      ensures r in {NeedFile, BadCount} ==> isLoading == old(isLoading)
      ensures r !in {NeedFile, BadCount} ==> !isLoading
    {
      if uploadedFile.None? {
        return NeedFile;
      }
      if !CountAccepted(NumberOfText(numQuestions)) {
        return BadCount;
      }
      isLoading := true;
      if response.None? || !ResponseAccepted(response.value) {
        r := Failed;
      } else {
        r := Generated(response.value);
        open := false;
        ResetForm();
      }
      isLoading := false;
    }
  }
}
