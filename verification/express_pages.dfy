/** The two HTML pages express-server.js sends itself: the catch-all's
    404 page and the error handler's 500 page. Neither depends on the
    request or on the error. */
module ExpressPages {
  import opened Http

  /** The text of a fixed page. */
  function PageText(page: PageName): string {
    match page
    case MissingIndexPage => NotFoundPage
    case ErrorPage => ServerErrorPage
  }

  /** The page sent when `index.html` is missing. */
  const NotFoundPage: string :=
    "\n" +
    "      <!DOCTYPE html>\n" +
    "      <html lang=\"ar\" dir=\"rtl\">\n" +
    "      <head>\n" +
    "        <meta charset=\"UTF-8\">\n" +
    "        <meta name=\"viewport\" content=\"width=device-width, initial-scale=1.0\">\n" +
    "        <title>خطأ 404 - الصفحة غير موجودة</title>\n" +
    "        <style>\n" +
    "          body {\n" +
    "            font-family: Arial, sans-serif;\n" +
    "            text-align: center;\n" +
    "            padding: 50px;\n" +
    "            background: linear-gradient(135deg, #1f2937, #374151);\n" +
    "            color: white;\n" +
    "            min-height: 100vh;\n" +
    "            margin: 0;\n" +
    "            display: flex;\n" +
    "            align-items: center;\n" +
    "            justify-content: center;\n" +
    "            flex-direction: column;\n" +
    "          }\n" +
    "          h1 { font-size: 4em; margin: 0; color: #ef4444; }\n" +
    "          h2 { margin: 20px 0; color: #60a5fa; }\n" +
    "          p { font-size: 1.2em; margin: 20px 0; }\n" +
    "          .home-btn {\n" +
    "            background: #3b82f6;\n" +
    "            color: white;\n" +
    "            padding: 15px 30px;\n" +
    "            border: none;\n" +
    "            border-radius: 8px;\n" +
    "            font-size: 1.1em;\n" +
    "            cursor: pointer;\n" +
    "            text-decoration: none;\n" +
    "            display: inline-block;\n" +
    "            margin-top: 20px;\n" +
    "          }\n" +
    "          .home-btn:hover { background: #2563eb; }\n" +
    "        </style>\n" +
    "      </head>\n" +
    "      <body>\n" +
    "        <div>\n" +
    "          <h1>404</h1>\n" +
    "          <h2>الصفحة غير موجودة</h2>\n" +
    "          <p>عذراً، الصفحة التي تبحث عنها غير موجودة.</p>\n" +
    "          <a href=\"/\" class=\"home-btn\">العودة للصفحة الرئيسية</a>\n" +
    "        </div>\n" +
    "      </body>\n" +
    "      </html>\n" +
    "    "

  /** The page sent for any error passed to the error handler. */
  const ServerErrorPage: string :=
    "\n" +
    "    <!DOCTYPE html>\n" +
    "    <html lang=\"ar\" dir=\"rtl\">\n" +
    "    <head>\n" +
    "      <meta charset=\"UTF-8\">\n" +
    "      <meta name=\"viewport\" content=\"width=device-width, initial-scale=1.0\">\n" +
    "      <title>خطأ 500 - خطأ داخلي</title>\n" +
    "      <style>\n" +
    "        body {\n" +
    "          font-family: Arial, sans-serif;\n" +
    "          text-align: center;\n" +
    "          padding: 50px;\n" +
    "          background: linear-gradient(135deg, #1f2937, #374151);\n" +
    "          color: white;\n" +
    "          min-height: 100vh;\n" +
    "          margin: 0;\n" +
    "          display: flex;\n" +
    "          align-items: center;\n" +
    "          justify-content: center;\n" +
    "          flex-direction: column;\n" +
    "        }\n" +
    "        h1 { font-size: 4em; margin: 0; color: #ef4444; }\n" +
    "        h2 { margin: 20px 0; color: #60a5fa; }\n" +
    "        p { font-size: 1.2em; margin: 20px 0; }\n" +
    "        .home-btn {\n" +
    "          background: #3b82f6;\n" +
    "          color: white;\n" +
    "          padding: 15px 30px;\n" +
    "          border: none;\n" +
    "          border-radius: 8px;\n" +
    "          font-size: 1.1em;\n" +
    "          cursor: pointer;\n" +
    "          text-decoration: none;\n" +
    "          display: inline-block;\n" +
    "          margin-top: 20px;\n" +
    "        }\n" +
    "        .home-btn:hover { background: #2563eb; }\n" +
    "      </style>\n" +
    "    </head>\n" +
    "    <body>\n" +
    "      <div>\n" +
    "        <h1>500</h1>\n" +
    "        <h2>خطأ داخلي في الخادم</h2>\n" +
    "        <p>عذراً، حدث خطأ غير متوقع. يرجى المحاولة مرة أخرى.</p>\n" +
    "        <a href=\"/\" class=\"home-btn\">العودة للصفحة الرئيسية</a>\n" +
    "      </div>\n" +
    "    </body>\n" +
    "    </html>\n" +
    "  "
}
